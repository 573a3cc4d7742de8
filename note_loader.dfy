/** The progress-note loader of packages/framework/document_loaders/note_loader:
    `parse_note_sections` (header lines cut the note into named sections),
    `load_progress_note`, the priority lookup `extract_assessment_plan`, and
    `extract_condition_blocks` (three numbered-list patterns, the one with the
    most blocks wins, and a fallback on lines holding ICD-10 codes). */
module NoteLoader {
  import opened Wrappers
  import opened Text
  import opened Lists
  import opened CodeShapes

  // ---------------------------------------------------------------------------
  // Header lines (the pattern of line 37)
  // ---------------------------------------------------------------------------

  /** `[A-Za-z\/\s]`. */
  predicate IsHeadChar(c: char) { IsLetter(c) || c == '/' || IsSpace(c) }

  /** The end of the run of `[A-Za-z\/\s]` starting at `i`. */
  function HeadRunEnd(s: string, i: nat): (k: nat)
    requires i <= |s|
    ensures i <= k <= |s|
    ensures forall j :: i <= j < k ==> IsHeadChar(s[j])
    ensures k < |s| ==> !IsHeadChar(s[k])
    decreases |s| - i
  {
    if i < |s| && IsHeadChar(s[i]) then HeadRunEnd(s, i + 1) else i
  }

  /** `re.match(section_pattern, line)` for a line of `split("\n")`, through the
      second alternative `^[A-Za-z\/\s]+\s*[\-:]\s*$`: a non-empty run of
      letters, '/' and white space, then '-' or ':', then only white space.
      Neither '-' nor ':' is in the class, so the separator is the first
      character outside it. */
  predicate IsHeaderLine(line: string) {
    var d := HeadRunEnd(line, 0);
    1 <= d < |line| && (line[d] == '-' || line[d] == ':') && SpacesEnd(line, d + 1) == |line|
  }

  /** The second alternative read as a pattern: some split of the line into a
      non-empty class run, a separator and trailing white space. */
  lemma HeaderLineIff(line: string)
    ensures IsHeaderLine(line) <==>
      exists p :: 1 <= p < |line| && (forall j :: 0 <= j < p ==> IsHeadChar(line[j])) &&
        (line[p] == '-' || line[p] == ':') && (forall j :: p < j < |line| ==> IsSpace(line[j]))
  {
    var d := HeadRunEnd(line, 0);
    if IsHeaderLine(line) {
      assert forall j :: d < j < |line| ==> IsSpace(line[j]);
    }
    forall p | 1 <= p < |line| && (forall j :: 0 <= j < p ==> IsHeadChar(line[j])) &&
        (line[p] == '-' || line[p] == ':') && (forall j :: p < j < |line| ==> IsSpace(line[j]))
      ensures IsHeaderLine(line)
    {
      assert !IsHeadChar(line[p]);
      assert d == p;
      SpacesEndAt(line, p + 1, |line|);
    }
  }

  /** The first alternative `^([A-Za-z\/\s]+)$\n` needs a final '\n' after the
      run; `re.match` of it succeeds exactly on such strings. */
  predicate FirstAlternativeMatches(line: string) {
    |line| >= 2 && line[|line| - 1] == '\n' && forall j :: 0 <= j < |line| - 1 ==> IsHeadChar(line[j])
  }

  /** A line of `split("\n")` holds no '\n', so only the second alternative
      can classify it as a header. */
  lemma FirstAlternativeNeverFires(line: string)
    requires '\n' !in line
    ensures !FirstAlternativeMatches(line)
  {
  }

  const PlanKey := "Assessment / Plan"

  /** A bare "Assessment / Plan" line has no '-' or ':', so it is content. */
  lemma BarePlanHeadingIsContent()
    ensures !IsHeaderLine(PlanKey)
  {
    NoSeparatorNoHeader(PlanKey);
  }

  lemma NoSeparatorNoHeader(line: string)
    requires '-' !in line && ':' !in line
    ensures !IsHeaderLine(line)
  {
  }

  /** `line.strip().split(':')[0].strip()`. */
  function SectionName(line: string): string {
    Strip(Split(Strip(line), ':')[0])
  }

  function HeaderTest(): string -> bool {
    (line: string) => IsHeaderLine(line)
  }

  function NameOf(): string -> string {
    (line: string) => SectionName(line)
  }

  // ---------------------------------------------------------------------------
  // The section loop of lines 42-63
  // ---------------------------------------------------------------------------

  /** A section under construction: its name and its content lines. */
  datatype Segment = Segment(name: string, body: seq<string>)

  /** The sections the first `n` lines fall into: one that starts at the top
      under the name "Header", then one per header line, named by `name`,
      holding the content lines up to the next header line. */
  function Segments(lines: seq<string>, n: nat, isHead: string -> bool, name: string -> string): (r: seq<Segment>)
    requires n <= |lines|
    ensures |r| >= 1
  {
    if n == 0 then [Segment("Header", [])]
    else
      var prev := Segments(lines, n - 1, isHead, name);
      var line := lines[n - 1];
      if isHead(line) then prev + [Segment(name(line), [])]
      else prev[..|prev| - 1] + [Segment(prev[|prev| - 1].name, prev[|prev| - 1].body + [line])]
  }

  function NoteSegments(lines: seq<string>, n: nat): (r: seq<Segment>)
    requires n <= |lines|
    ensures |r| >= 1
  {
    Segments(lines, n, HeaderTest(), NameOf())
  }

  /** The dictionary the loop leaves: the sections in order, each one that has
      content stored under its name as its lines "\n"-joined and stripped,
      a later section overwriting an earlier one of the same name. */
  function Record(segs: seq<Segment>): map<string, string> {
    if segs == [] then map[]
    else
      var m := Record(segs[..|segs| - 1]);
      var s := segs[|segs| - 1];
      if s.body != [] then m[s.name := Strip(Join(s.body, "\n"))] else m
  }

  /** One more line: a header line opens a new empty section, any other line
      joins the open one. */
  lemma SegmentsStep(lines: seq<string>, n: nat, isHead: string -> bool, name: string -> string)
    requires 0 < n <= |lines|
    ensures var prev := Segments(lines, n - 1, isHead, name);
      var segs := Segments(lines, n, isHead, name);
      if isHead(lines[n - 1]) then
        segs[..|segs| - 1] == prev && segs[|segs| - 1] == Segment(name(lines[n - 1]), [])
      else
        segs[..|segs| - 1] == prev[..|prev| - 1] &&
        segs[|segs| - 1] == Segment(prev[|prev| - 1].name, prev[|prev| - 1].body + [lines[n - 1]])
  {
    var prev := Segments(lines, n - 1, isHead, name);
    if isHead(lines[n - 1]) {
      assert (prev + [Segment(name(lines[n - 1]), [])])[..|prev|] == prev;
    }
  }

  /** The structured part of `parse_note_sections`. */
  function StructuredSections(text: string): map<string, string> {
    var lines := Split(text, '\n');
    Record(NoteSegments(lines, |lines|))
  }

  // ---------------------------------------------------------------------------
  // The heuristic of lines 66-71
  // ---------------------------------------------------------------------------

  /** `word` (lower case) occurs at `j` when case is ignored. */
  predicate IsAtFolded(s: string, word: string, j: nat) {
    j + |word| <= |s| && Lower(s[j..j + |word|]) == word
  }

  /** Where the alternation `(?:Assessment|A/P|Assessment & Plan|Plan)` ends
      when it matches at `j` under IGNORECASE, trying its branches in order. */
  function KeywordEnd(s: string, j: nat): (r: Option<nat>)
    ensures r.Some? ==> j < r.value <= |s|
  {
    if IsAtFolded(s, "assessment", j) then Some(j + 10)
    else if IsAtFolded(s, "a/p", j) then Some(j + 3)
    else if IsAtFolded(s, "assessment & plan", j) then Some(j + 17)
    else if IsAtFolded(s, "plan", j) then Some(j + 4)
    else None
  }

  /** The third branch can never be the one taken: wherever it matches, the
      first branch matches too. */
  lemma LongBranchShadowed(s: string, j: nat)
    requires IsAtFolded(s, "assessment & plan", j)
    ensures IsAtFolded(s, "assessment", j)
  {
    var w := s[j..j + 17];
    assert s[j..j + 10] == w[..10];
    assert Lower(w[..10]) == Lower(w)[..10];
  }

  function KeywordTest(s: string): nat -> bool {
    (j: nat) => KeywordEnd(s, j).Some?
  }

  /** `j` is where the search of line 68 matches the keyword and `e` where the
      lazy group ends: the first "\n\n" from the keyword's end, or the end. */
  ghost predicate HeuristicSpan(text: string, j: nat, e: nat) {
    KeywordEnd(text, j).Some? && (forall k :: 0 <= k < j ==> KeywordEnd(text, k).None?) &&
    var b := KeywordEnd(text, j).value;
    b <= e <= |text| && (e == |text| || IsAt(text, "\n\n", e)) &&
    (forall k :: b <= k < e ==> !IsAt(text, "\n\n", k))
  }

  /** `re.search(...).group(1).strip()`, or `None` when no keyword occurs. */
  function HeuristicPlan(text: string): (r: Option<string>)
    ensures r.None? <==> forall j :: 0 <= j <= |text| ==> KeywordEnd(text, j).None?
    ensures r.Some? ==> exists j: nat, e: nat ::
      (HeuristicSpan(text, j, e) && r.value == Strip(text[KeywordEnd(text, j).value..e]))
  {
    var p := KeywordTest(text);
    assert forall j: nat :: p(j) == KeywordEnd(text, j).Some?;
    match FirstWhere(p, 0, |text| + 1)
    case None => None
    case Some(j) =>
      var b := KeywordEnd(text, j).value;
      var e := match FindFrom(text, "\n\n", b) case None => |text| case Some(e) => e;
      assert HeuristicSpan(text, j, e);
      Some(Strip(text[b..e]))
  }

  /** The heuristic section never holds a blank-line separator "\n\n". */
  lemma HeuristicNoBlankLine(text: string)
    requires HeuristicPlan(text).Some?
    ensures forall k :: !IsAt(HeuristicPlan(text).value, "\n\n", k)
  {
    var j: nat, e: nat :| HeuristicSpan(text, j, e) && HeuristicPlan(text).value == Strip(text[KeywordEnd(text, j).value..e]);
    var b := KeywordEnd(text, j).value;
    SliceAbsent(text, "\n\n", b, e);
    StripAbsent(text[b..e], "\n\n");
  }

  // ---------------------------------------------------------------------------
  // parse_note_sections and load_progress_note
  // ---------------------------------------------------------------------------

  /** `parse_note_sections`: the structured sections, plus the heuristic's
      section under "Assessment / Plan" when neither "Assessment / Plan" nor
      "Assessment" is a section name and a keyword occurs. */
  function NoteSections(text: string): map<string, string> {
    var m := StructuredSections(text);
    if PlanKey !in m && "Assessment" !in m then
      match HeuristicPlan(text)
      case None => m
      case Some(plan) => m[PlanKey := plan]
    else m
  }

  /** What the loop holds after a prefix of the lines: the dictionary of
      the closed sections, the open section's name and its content. */
  datatype ParseState = ParseState(sections: map<string, string>, current: string, content: seq<string>)

  function View(segs: seq<Segment>): ParseState
    requires |segs| >= 1
  {
    ParseState(Record(segs[..|segs| - 1]), segs[|segs| - 1].name, segs[|segs| - 1].body)
  }

  /** Closing the open section stores its content when it has any. */
  function Close(st: ParseState): map<string, string> {
    if st.content != [] then st.sections[st.current := Strip(Join(st.content, "\n"))] else st.sections
  }

  lemma CloseView(segs: seq<Segment>)
    requires |segs| >= 1
    ensures Close(View(segs)) == Record(segs)
  {
    var init, last := segs[..|segs| - 1], segs[|segs| - 1];
    assert Record(segs) == if last.body != [] then Record(init)[last.name := Strip(Join(last.body, "\n"))] else Record(init);
  }

  /** One turn of the loop of lines 46-59 moves the state along the sections. */
  lemma LoopStep(lines: seq<string>, n: nat, isHead: string -> bool, name: string -> string)
    requires 0 < n <= |lines|
    ensures var st := View(Segments(lines, n - 1, isHead, name));
      View(Segments(lines, n, isHead, name)) ==
        if isHead(lines[n - 1]) then ParseState(Close(st), name(lines[n - 1]), [])
        else ParseState(st.sections, st.current, st.content + [lines[n - 1]])
  {
    SegmentsStep(lines, n, isHead, name);
    CloseView(Segments(lines, n - 1, isHead, name));
  }

  /** The body of the loop of lines 46-59 for one line: a header line
      closes the open section and opens its own; any other line joins the
      open section's content. */
  method TakeLine(sections: map<string, string>, currentSection: string, currentContent: seq<string>, line: string)
    returns (sections': map<string, string>, currentSection': string, currentContent': seq<string>)
    ensures ParseState(sections', currentSection', currentContent') ==
      if IsHeaderLine(line) then ParseState(Close(ParseState(sections, currentSection, currentContent)), SectionName(line), [])
      else ParseState(sections, currentSection, currentContent + [line])
  {
    sections', currentSection', currentContent' := sections, currentSection, currentContent;
    if IsHeaderLine(line) {
      if currentContent' != [] {
        sections' := sections'[currentSection' := Strip(Join(currentContent', "\n"))];
        currentContent' := [];
      }
      currentSection' := SectionName(line);
    } else {
      currentContent' := currentContent' + [line];
    }
  }

  /** `LoopStep` for the header test and the naming of lines 50-54. */
  lemma NoteStep(lines: seq<string>, i: nat, sections: map<string, string>, current: string, content: seq<string>)
    requires i < |lines|
    requires View(NoteSegments(lines, i)) == ParseState(sections, current, content)
    ensures View(NoteSegments(lines, i + 1)) ==
      if IsHeaderLine(lines[i]) then ParseState(Close(ParseState(sections, current, content)), SectionName(lines[i]), [])
      else ParseState(sections, current, content + [lines[i]])
  {
    LoopStep(lines, i + 1, HeaderTest(), NameOf());
    assert HeaderTest()(lines[i]) == IsHeaderLine(lines[i]);
    assert NameOf()(lines[i]) == SectionName(lines[i]);
  }

  method ParseNoteSections(noteContent: string) returns (sections: map<string, string>)
    ensures sections == NoteSections(noteContent)
  {
    var lines := Split(noteContent, '\n');
    sections := RecordSections(lines);
    assert sections == StructuredSections(noteContent);
    if PlanKey !in sections && "Assessment" !in sections {
      var heuristic := HeuristicPlan(noteContent);
      if heuristic.Some? {
        sections := sections[PlanKey := heuristic.value];
      }
    }
  }

  /** The loop of lines 46-63 over the lines of the note. */
  method RecordSections(lines: seq<string>) returns (sections: map<string, string>)
    ensures sections == Record(NoteSegments(lines, |lines|))
  {
    sections := map[];
    var currentSection := "Header";
    var currentContent: seq<string> := [];
    var i := 0;
    while i < |lines|
      invariant 0 <= i <= |lines|
      invariant View(NoteSegments(lines, i)) == ParseState(sections, currentSection, currentContent)
    {
      NoteStep(lines, i, sections, currentSection, currentContent);
      sections, currentSection, currentContent := TakeLine(sections, currentSection, currentContent, lines[i]);
      i := i + 1;
    }
    CloseView(NoteSegments(lines, |lines|));
    if currentContent != [] {
      sections := sections[currentSection := Strip(Join(currentContent, "\n"))];
    }
  }

  // ---------------------------------------------------------------------------
  // What the sections hold
  // ---------------------------------------------------------------------------

  /** The end of section `j`: the next header line, or the end of the lines. */
  function Bound(h: seq<nat>, j: nat, n: nat): nat {
    if j < |h| then h[j] else n
  }

  /** Sections `segs` partition the first `n` lines at the header lines `h`:
      the first one is named "Header" and holds the lines before the first
      header line; section `i` after it is opened by header line `h[i - 1]`,
      is named after it and holds exactly the lines from the next line up to
      the following header line. */
  predicate Partition(lines: seq<string>, n: nat, h: seq<nat>, segs: seq<Segment>, name: string -> string)
    requires n <= |lines| && Increasing(h) && forall k :: 0 <= k < |h| ==> h[k] < n
  {
    |segs| == |h| + 1 &&
    segs[0] == Segment("Header", lines[..Bound(h, 0, n)]) &&
    forall i :: 1 <= i < |segs| ==> segs[i] == Segment(name(lines[h[i - 1]]), lines[h[i - 1] + 1..Bound(h, i, n)])
  }

  lemma PartitionHeader(lines: seq<string>, n: nat, h: seq<nat>, segs: seq<Segment>, name: string -> string)
    requires 0 < n <= |lines| && Increasing(h) && forall k :: 0 <= k < |h| ==> h[k] < n - 1
    requires Partition(lines, n - 1, h, segs, name)
    ensures Increasing(h + [n - 1])
    ensures Partition(lines, n, h + [n - 1], segs + [Segment(name(lines[n - 1]), [])], name)
  {
    var h2 := h + [n - 1];
    var segs2 := segs + [Segment(name(lines[n - 1]), [])];
    forall i | 1 <= i < |segs2| ensures segs2[i] == Segment(name(lines[h2[i - 1]]), lines[h2[i - 1] + 1..Bound(h2, i, n)]) {
      if i < |segs| {
        assert Bound(h2, i, n) == Bound(h, i, n - 1);
      } else {
        assert lines[n..n] == [];
      }
    }
  }

  lemma PartitionContent(lines: seq<string>, n: nat, h: seq<nat>, segs: seq<Segment>, name: string -> string)
    requires 0 < n <= |lines| && Increasing(h) && forall k :: 0 <= k < |h| ==> h[k] < n - 1
    requires Partition(lines, n - 1, h, segs, name)
    ensures Partition(lines, n, h,
      segs[..|segs| - 1] + [Segment(segs[|segs| - 1].name, segs[|segs| - 1].body + [lines[n - 1]])], name)
  {
    if |h| == 0 {
      PartitionContentHeader(lines, n, h, segs, name);
    } else {
      PartitionContentLater(lines, n, h, segs, name);
    }
  }

  /** `PartitionContent` while no header line has been seen. */
  lemma PartitionContentHeader(lines: seq<string>, n: nat, h: seq<nat>, segs: seq<Segment>, name: string -> string)
    requires 0 < n <= |lines| && h == []
    requires Partition(lines, n - 1, h, segs, name)
    ensures Partition(lines, n, h,
      segs[..|segs| - 1] + [Segment(segs[|segs| - 1].name, segs[|segs| - 1].body + [lines[n - 1]])], name)
  {
    SliceSnoc(lines, 0, n - 1);
    assert lines[..n - 1] == lines[0..n - 1] && lines[..n] == lines[0..n];
  }

  /** `PartitionContent` once a header line has been seen: only the last
      section changes. */
  lemma PartitionContentLater(lines: seq<string>, n: nat, h: seq<nat>, segs: seq<Segment>, name: string -> string)
    requires 0 < n <= |lines| && Increasing(h) && forall k :: 0 <= k < |h| ==> h[k] < n - 1
    requires |h| > 0 && Partition(lines, n - 1, h, segs, name)
    ensures Partition(lines, n, h,
      segs[..|segs| - 1] + [Segment(segs[|segs| - 1].name, segs[|segs| - 1].body + [lines[n - 1]])], name)
  {
    GrowLast(segs, lines[n - 1]);
    var last := segs[|segs| - 1];
    LastSectionGrown(lines, n, h, segs, segs[..|segs| - 1] + [Segment(last.name, last.body + [lines[n - 1]])], name);
  }

  /** Adding a line to the last section keeps the others. */
  lemma GrowLast(segs: seq<Segment>, line: string)
    requires |segs| >= 1
    ensures var last := segs[|segs| - 1]; var segs2 := segs[..|segs| - 1] + [Segment(last.name, last.body + [line])];
      |segs2| == |segs| && (forall i :: 0 <= i < |segs| - 1 ==> segs2[i] == segs[i]) &&
      segs2[|segs| - 1] == Segment(last.name, last.body + [line])
  {
  }

  /** Sections that agree with a partition of `n - 1` lines except for the
      last, which takes line `n - 1` as well, partition `n` lines. */
  lemma LastSectionGrown(lines: seq<string>, n: nat, h: seq<nat>, segs: seq<Segment>, segs2: seq<Segment>,
                         name: string -> string)
    requires 0 < n <= |lines|
    requires Increasing(h)
    requires forall k :: 0 <= k < |h| ==> h[k] < n - 1
    requires |h| > 0
    requires Partition(lines, n - 1, h, segs, name)
    requires |segs2| == |segs|
    requires forall i :: 0 <= i < |segs| - 1 ==> segs2[i] == segs[i]
    requires segs2[|segs| - 1] == Segment(segs[|segs| - 1].name, segs[|segs| - 1].body + [lines[n - 1]])
    ensures Partition(lines, n, h, segs2, name)
  {
    var a := h[|h| - 1] + 1;
    assert Bound(h, |h|, n - 1) == n - 1;
    SliceSnoc(lines, a, n - 1);
    assert segs2[0] == segs[0];
    forall i | 1 <= i < |segs2| ensures segs2[i] == Segment(name(lines[h[i - 1]]), lines[h[i - 1] + 1..Bound(h, i, n)]) {
      if i < |segs| - 1 {
        assert segs2[i] == segs[i];
        assert Bound(h, i, n) == Bound(h, i, n - 1);
      }
    }
  }

  /** The sections of the first `n` lines partition them at their header lines. */
  lemma {:induction false} SegmentsSpan(lines: seq<string>, n: nat, isHead: string -> bool, name: string -> string)
    requires n <= |lines|
    ensures Partition(lines, n, IndicesWhere(lines, isHead, n), Segments(lines, n, isHead, name), name)
  {
    if n > 0 {
      SegmentsSpan(lines, n - 1, isHead, name);
      var h := IndicesWhere(lines, isHead, n - 1);
      var segs := Segments(lines, n - 1, isHead, name);
      var h2 := IndicesWhere(lines, isHead, n);
      var segs2 := Segments(lines, n, isHead, name);
      if isHead(lines[n - 1]) {
        assert h2 == h + [n - 1];
        assert segs2 == segs + [Segment(name(lines[n - 1]), [])];
        PartitionHeader(lines, n, h, segs, name);
      } else {
        assert h2 == h;
        assert segs2 == segs[..|segs| - 1] + [Segment(segs[|segs| - 1].name, segs[|segs| - 1].body + [lines[n - 1]])];
        PartitionContent(lines, n, h, segs, name);
      }
    }
  }

  /** A name is a key of the dictionary exactly when some section of that
      name has content: a header followed at once by another header records
      nothing. */
  lemma {:induction false} RecordKeys(segs: seq<Segment>, key: string)
    ensures key in Record(segs) <==> exists i :: 0 <= i < |segs| && segs[i].name == key && segs[i].body != []
  {
    if segs != [] {
      var init := segs[..|segs| - 1];
      RecordKeys(init, key);
      assert forall i :: 0 <= i < |init| ==> init[i] == segs[i];
    }
  }

  /** The value stored under a name is the content of the LAST section of that
      name that has content, "\n"-joined and stripped. */
  lemma {:induction false} RecordValue(segs: seq<Segment>, i: nat)
    requires i < |segs| && segs[i].body != []
    requires forall j :: i < j < |segs| ==> !(segs[j].name == segs[i].name && segs[j].body != [])
    ensures segs[i].name in Record(segs)
    ensures Record(segs)[segs[i].name] == Strip(Join(segs[i].body, "\n"))
  {
    if i < |segs| - 1 {
      var init := segs[..|segs| - 1];
      assert init[i] == segs[i];
      RecordValue(init, i);
    }
  }

  /** The dictionary `load_progress_note` returns. */
  datatype LoadedNote = LoadedNote(rawContent: string, sections: map<string, string>, assessmentPlan: string)

  function LoadProgressNote(noteContent: string): LoadedNote {
    var sections := NoteSections(noteContent);
    LoadedNote(noteContent, sections, if PlanKey in sections then sections[PlanKey] else "")
  }

  /** `load_progress_note` keeps the text verbatim, and its assessment_plan is
      the content of the last "Assessment / Plan" section that has any; with
      no such section and no "Assessment" section with content, it is the
      heuristic's section, or "" when no keyword occurs; otherwise "". */
  lemma LoadProgressNoteMeaning(noteContent: string)
    ensures LoadProgressNote(noteContent).rawContent == noteContent
    ensures var segs := NoteSegments(Split(noteContent, '\n'), |Split(noteContent, '\n')|);
      var plan := LoadProgressNote(noteContent).assessmentPlan;
      (forall i :: (0 <= i < |segs| && segs[i].name == PlanKey && segs[i].body != [] &&
         (forall j :: i < j < |segs| ==> !(segs[j].name == PlanKey && segs[j].body != []))) ==>
         plan == Strip(Join(segs[i].body, "\n"))) &&
      ((forall i :: 0 <= i < |segs| ==> !(segs[i].name == PlanKey && segs[i].body != [])) ==>
         plan == if (forall i :: 0 <= i < |segs| ==> !(segs[i].name == "Assessment" && segs[i].body != []))
                 then (match HeuristicPlan(noteContent) case Some(p) => p case None => "")
                 else "")
  {
    var lines := Split(noteContent, '\n');
    var segs := NoteSegments(lines, |lines|);
    RecordKeys(segs, PlanKey);
    RecordKeys(segs, "Assessment");
    forall i | 0 <= i < |segs| && segs[i].name == PlanKey && segs[i].body != [] &&
         (forall j :: i < j < |segs| ==> !(segs[j].name == PlanKey && segs[j].body != []))
      ensures LoadProgressNote(noteContent).assessmentPlan == Strip(Join(segs[i].body, "\n"))
    {
      RecordValue(segs, i);
    }
  }

  // ---------------------------------------------------------------------------
  // extract_assessment_plan (lines 75-91)
  // ---------------------------------------------------------------------------

  /** The section names tried, in order. */
  const PlanHeaders: seq<string> := ["Assessment / Plan", "Assessment/Plan", "Assessment & Plan", "A/P", "Plan"]

  function PresentTest(sections: map<string, string>): nat -> bool {
    (k: nat) => k < |PlanHeaders| && PlanHeaders[k] in sections
  }

  /** The position in the list of the first name that is a key. */
  function FirstPresent(sections: map<string, string>): (r: Option<nat>)
    ensures r.Some? ==> r.value < |PlanHeaders| && PlanHeaders[r.value] in sections
    ensures r.Some? ==> forall k :: 0 <= k < r.value ==> PlanHeaders[k] !in sections
    ensures r.None? ==> forall k :: 0 <= k < |PlanHeaders| ==> PlanHeaders[k] !in sections
  {
    var p := PresentTest(sections);
    assert forall k: nat :: p(k) == (k < |PlanHeaders| && PlanHeaders[k] in sections);
    FirstWhere(p, 0, |PlanHeaders|)
  }

  function AssessmentPlanOf(sections: map<string, string>): string {
    match FirstPresent(sections)
    case None => ""
    case Some(k) => sections[PlanHeaders[k]]
  }

  /** The loop with an early return. */
  method ExtractAssessmentPlan(sections: map<string, string>) returns (plan: string)
    ensures plan == AssessmentPlanOf(sections)
  {
    var i := 0;
    while i < |PlanHeaders|
      invariant 0 <= i <= |PlanHeaders|
      invariant forall k :: 0 <= k < i ==> PlanHeaders[k] !in sections
    {
      var header := PlanHeaders[i];
      if header in sections {
        return sections[header];
      }
      i := i + 1;
    }
    return "";
  }

  /** The value of the first listed name that is a key, or "" when none is. */
  lemma AssessmentPlanOfMeaning(sections: map<string, string>)
    ensures (forall k :: 0 <= k < |PlanHeaders| ==> PlanHeaders[k] !in sections) ==> AssessmentPlanOf(sections) == ""
    ensures forall k :: (0 <= k < |PlanHeaders| && PlanHeaders[k] in sections &&
      (forall l :: 0 <= l < k ==> PlanHeaders[l] !in sections)) ==> AssessmentPlanOf(sections) == sections[PlanHeaders[k]]
  {
    var r := FirstPresent(sections);
    forall k | 0 <= k < |PlanHeaders| && PlanHeaders[k] in sections &&
      (forall l :: 0 <= l < k ==> PlanHeaders[l] !in sections)
      ensures AssessmentPlanOf(sections) == sections[PlanHeaders[k]]
    {
      assert r.Some?;
      assert !(r.value < k) && !(k < r.value);
    }
  }

  /** When "Assessment / Plan" is a key, the lookup and the loader agree on
      the loaded dictionary; they part only when it is not (the lookup then
      falls back to the other names). */
  lemma LookupAgreesWithLoader(noteContent: string)
    requires PlanKey in NoteSections(noteContent)
    ensures AssessmentPlanOf(NoteSections(noteContent)) == LoadProgressNote(noteContent).assessmentPlan
  {
    assert FirstPresent(NoteSections(noteContent)) == Some(0);
  }

  // ---------------------------------------------------------------------------
  // extract_condition_blocks (lines 93-134)
  // ---------------------------------------------------------------------------

  /** The numbered-list patterns of lines 106, 109 and 112: `\d+\.`, `\d+\)`
      and `\d+\s*-`. */
  datatype Marker = Dot | Paren | Dash

  /** The separator after the digits that end at `d`: '.', ')' or `\s*-`; the
      index after it. */
  function SeparatorEnd(s: string, d: nat, m: Marker): (r: Option<nat>)
    requires d <= |s|
    ensures r.Some? ==> d < r.value <= |s|
  {
    match m
    case Dot => if d < |s| && s[d] == '.' then Some(d + 1) else None
    case Paren => if d < |s| && s[d] == ')' then Some(d + 1) else None
    case Dash =>
      var w := SpacesEnd(s, d);
      if w < |s| && s[w] == '-' then Some(w + 1) else None
  }

  /** `\s*` then a marker read from `i`: the index after the separator. The
      runs are greedy and the classes disjoint, so no other reading exists. */
  function MarkerEnd(s: string, i: nat, m: Marker): (r: Option<nat>)
    requires i <= |s|
    ensures r.Some? ==> SpacesEnd(s, i) < r.value <= |s|
    ensures r.Some? ==> SpacesEnd(s, i) < |s| && IsDigit(s[SpacesEnd(s, i)])
  {
    var g := SpacesEnd(s, i);
    var d := DigitsEnd(s, g);
    if d > g then SeparatorEnd(s, d, m) else None
  }

  /** The lookahead `(?=(?:\n\s*<marker>)|$)` holds at `q`: a newline that
      starts the next entry, the end of the text, or a final newline (`$`
      without MULTILINE). */
  predicate IsBlockEnd(s: string, q: nat, m: Marker)
    requires q <= |s|
  {
    (q < |s| && s[q] == '\n' && MarkerEnd(s, q + 1, m).Some?) || q == |s| || (q + 1 == |s| && s[q] == '\n')
  }

  /** Where the lazy `.*?` stops: the first position from `q` on where the
      lookahead holds. */
  function BlockEndFrom(s: string, q: nat, m: Marker): (e: nat)
    requires q <= |s|
    ensures q <= e <= |s| && IsBlockEnd(s, e, m)
    ensures forall k :: q <= k < e ==> !IsBlockEnd(s, k, m)
    decreases |s| - q
  {
    if IsBlockEnd(s, q, m) then q else BlockEndFrom(s, q + 1, m)
  }

  /** An entry opens at `i`: `i` starts a line (the text start or just after a
      newline) and `\s*`, digits and the marker follow it. */
  predicate EntryStart(s: string, i: nat, m: Marker) {
    i <= |s| && (i == 0 || s[i - 1] == '\n') && MarkerEnd(s, i, m).Some?
  }

  /** When the search tries position `p`, `(?:^|\n)\s*` followed by a marker
      matches: `^` at the text start or a newline at `p` opens an entry, and
      the result is the group's start (the first digit, after the leading
      white space) and the marker's end. Otherwise nothing matches at `p`. */
  function GroupStartAt(s: string, p: nat, m: Marker): (r: Option<(nat, nat)>)
    requires p <= |s|
    ensures r.Some? ==> p <= r.value.0 < r.value.1 <= |s| && IsDigit(s[r.value.0])
    ensures r.Some? ==>
      (p == 0 && EntryStart(s, 0, m) && r.value == (SpacesEnd(s, 0), MarkerEnd(s, 0, m).value)) ||
      (p < |s| && s[p] == '\n' && EntryStart(s, p + 1, m) &&
       r.value == (SpacesEnd(s, p + 1), MarkerEnd(s, p + 1, m).value))
    ensures r.None? <==> !(p == 0 && EntryStart(s, 0, m)) && !(p < |s| && s[p] == '\n' && EntryStart(s, p + 1, m))
  {
    if p == 0 && MarkerEnd(s, 0, m).Some? then Some((SpacesEnd(s, 0), MarkerEnd(s, 0, m).value))
    else if p < |s| && s[p] == '\n' && MarkerEnd(s, p + 1, m).Some? then Some((SpacesEnd(s, p + 1), MarkerEnd(s, p + 1, m).value))
    else None
  }

  /** `re.findall(pattern, s[p..], re.DOTALL)` for one of the numbered
      patterns: each group runs from an entry's first digit, past the marker
      and the white space after it, to where the lookahead next holds; the
      search resumes there. */
  function NumberedBlocks(s: string, p: nat, m: Marker): (r: seq<string>)
    ensures forall k :: 0 <= k < |r| ==> |r[k]| > 0 && IsDigit(r[k][0])
    ensures EntryBlocks(s, m, p, r)
    decreases |s| + 1 - p
  {
    if p > |s| then []
    else
      match GroupStartAt(s, p, m)
      case None =>
        var rest := NumberedBlocks(s, p + 1, m);
        EntryBlocksLater(s, m, p, p + 1, rest);
        rest
      case Some((g, a)) =>
        var q := BlockEndFrom(s, SpacesEnd(s, a), m);
        var rest := NumberedBlocks(s, q, m);
        assert s[g..q][0] == s[g];
        DigitHeadedCons(s[g..q], rest);
        EntryBlocksCons(s, p, m, g, a, rest);
        [s[g..q]] + rest
  }

  /** Where the block of the entry opening at `i` ends: the first position
      past the marker and the white space after it where the next entry opens
      on a new line or the text ends. */
  function EntryEnd(s: string, i: nat, m: Marker): (e: nat)
    requires EntryStart(s, i, m)
    ensures SpacesEnd(s, i) < e <= |s|
  {
    BlockEndFrom(s, SpacesEnd(s, MarkerEnd(s, i, m).value), m)
  }

  /** `b` is the block of an entry opening at a line start at or after `p`:
      the text from the entry's first digit to its end. */
  ghost predicate EntryBlock(s: string, m: Marker, p: nat, b: string) {
    exists i: nat {:trigger EntryStart(s, i, m)} ::
      p <= i && EntryStart(s, i, m) && b == s[SpacesEnd(s, i)..EntryEnd(s, i, m)]
  }

  /** The group that opens where the search tries `p` is the block of an
      entry opening at a line start at or after `p`. */
  lemma FirstBlock(s: string, p: nat, m: Marker, g: nat, a: nat)
    requires p <= |s| && GroupStartAt(s, p, m) == Some((g, a)) && g <= BlockEndFrom(s, SpacesEnd(s, a), m)
    ensures EntryBlock(s, m, p, s[g..BlockEndFrom(s, SpacesEnd(s, a), m)])
  {
    var i := if p == 0 && EntryStart(s, 0, m) then 0 else p + 1;
    EntryBlockAt(s, m, p, i, s[g..BlockEndFrom(s, SpacesEnd(s, a), m)]);
  }

  lemma EntryBlockAt(s: string, m: Marker, p: nat, i: nat, b: string)
    requires p <= i && EntryStart(s, i, m) && b == s[SpacesEnd(s, i)..EntryEnd(s, i, m)]
    ensures EntryBlock(s, m, p, b)
  {
  }

  /** Each of `blocks` is the block of an entry opening at a line start at or
      after `p`. */
  ghost predicate EntryBlocks(s: string, m: Marker, p: nat, blocks: seq<string>) {
    forall k :: 0 <= k < |blocks| ==> EntryBlock(s, m, p, blocks[k])
  }

  /** Blocks of entries at or after `q` are blocks of entries at or after `p`. */
  lemma EntryBlocksLater(s: string, m: Marker, p: nat, q: nat, blocks: seq<string>)
    requires p <= q && EntryBlocks(s, m, q, blocks)
    ensures EntryBlocks(s, m, p, blocks)
  {
    forall k | 0 <= k < |blocks| ensures EntryBlock(s, m, p, blocks[k]) {
      assert EntryBlock(s, m, q, blocks[k]);
      var i: nat :| q <= i && EntryStart(s, i, m) && blocks[k] == s[SpacesEnd(s, i)..EntryEnd(s, i, m)];
      EntryBlockAt(s, m, p, i, blocks[k]);
    }
  }

  /** The group found where the search tries `p`, in front of those found
      from its end on. */
  lemma EntryBlocksCons(s: string, p: nat, m: Marker, g: nat, a: nat, rest: seq<string>)
    requires p <= |s| && GroupStartAt(s, p, m) == Some((g, a))
    requires EntryBlocks(s, m, BlockEndFrom(s, SpacesEnd(s, a), m), rest)
    ensures g <= BlockEndFrom(s, SpacesEnd(s, a), m)
    ensures EntryBlocks(s, m, p, [s[g..BlockEndFrom(s, SpacesEnd(s, a), m)]] + rest)
  {
    var q := BlockEndFrom(s, SpacesEnd(s, a), m);
    FirstBlock(s, p, m, g, a);
    EntryBlocksLater(s, m, p, q, rest);
    EntryBlocksPrepend(s, m, p, s[g..q], rest);
  }

  lemma EntryBlocksPrepend(s: string, m: Marker, p: nat, x: string, rest: seq<string>)
    requires EntryBlock(s, m, p, x) && EntryBlocks(s, m, p, rest)
    ensures EntryBlocks(s, m, p, [x] + rest)
  {
    var r := [x] + rest;
    forall k | 0 <= k < |r| ensures EntryBlock(s, m, p, r[k]) {
      if k > 0 {
        assert r[k] == rest[k - 1];
        assert EntryBlock(s, m, p, rest[k - 1]);
      }
    }
  }

  /** Blocks that each open with a digit stay so when one more is put in
      front. */
  lemma DigitHeadedCons(x: string, rest: seq<string>)
    requires |x| > 0 && IsDigit(x[0])
    requires forall k :: 0 <= k < |rest| ==> |rest[k]| > 0 && IsDigit(rest[k][0])
    ensures forall k :: 0 <= k < |[x] + rest| ==> |([x] + rest)[k]| > 0 && IsDigit(([x] + rest)[k][0])
  {
    var r := [x] + rest;
    assert forall k :: 1 <= k < |r| ==> r[k] == rest[k - 1];
  }

  /** `[A-Z]\d+\.\d+` matches at `r`. */
  predicate IcdCodeAt(s: string, r: nat) {
    r <= |s| && DottedCodeAt(s, r).Some?
  }

  function CodeTest(s: string): nat -> bool {
    (r: nat) => IcdCodeAt(s, r)
  }

  /** The line that starts at `i` holds a code: `[^\n]*?` can reach it. */
  predicate LineHasCode(s: string, i: nat)
    requires i <= |s|
  {
    FirstWhere(CodeTest(s), i, NewlineFrom(s, i)).Some?
  }

  /** `(?:\n(?![A-Z]\d+\.\d+)[^\n]+)*`, greedy from the line end `e`: the
      following lines are taken while they are non-empty and do not start
      with a code. */
  function ContinuationEnd(s: string, e: nat): (r: nat)
    requires e <= |s|
    ensures e <= r <= |s|
    decreases |s| - e
  {
    if e + 1 < |s| && s[e] == '\n' && s[e + 1] != '\n' && !IcdCodeAt(s, e + 1) then
      ContinuationEnd(s, NewlineFrom(s, e + 1))
    else e
  }

  /** A line holding a code holds an upper-case letter. */
  lemma LineCodeUpper(s: string, g: nat, q: nat)
    requires g <= |s| && LineHasCode(s, g) && NewlineFrom(s, g) <= q <= |s|
    ensures HasUpper(s[g..q])
  {
    var c := FirstWhere(CodeTest(s), g, NewlineFrom(s, g)).value;
    assert CodeTest(s)(c);
    assert IsUpper(s[c]);
    assert s[g..q][c - g] == s[c];
  }

  /** Where the pattern of line 130 starts its group when the search tries `p`. */
  function IcdGroupStartAt(s: string, p: nat): (r: Option<nat>)
    requires p <= |s|
    ensures r.Some? ==> p <= r.value < |s| && LineHasCode(s, r.value)
  {
    if p == 0 && LineHasCode(s, 0) then Some(0)
    else if p < |s| && s[p] == '\n' && LineHasCode(s, p + 1) then Some(p + 1)
    else None
  }

  predicate HasUpper(b: string) {
    exists j :: 0 <= j < |b| && IsUpper(b[j])
  }

  /** `re.findall(icd_pattern, s[p..], re.DOTALL)`: each group is a line that
      holds a code, with the continuation lines after it. */
  function IcdBlocks(s: string, p: nat): (r: seq<string>)
    ensures forall k :: 0 <= k < |r| ==> HasUpper(r[k])
    decreases |s| + 1 - p
  {
    if p > |s| then []
    else
      match IcdGroupStartAt(s, p)
      case None => IcdBlocks(s, p + 1)
      case Some(g) =>
        var q := ContinuationEnd(s, NewlineFrom(s, g));
        var rest := IcdBlocks(s, q);
        LineCodeUpper(s, g, q);
        UpperCons(s[g..q], rest);
        [s[g..q]] + rest
  }

  /** Blocks that each hold an upper-case letter stay so when one more is put
      in front. */
  lemma UpperCons(x: string, rest: seq<string>)
    requires HasUpper(x)
    requires forall k :: 0 <= k < |rest| ==> HasUpper(rest[k])
    ensures forall k :: 0 <= k < |[x] + rest| ==> HasUpper(([x] + rest)[k])
  {
    var r := [x] + rest;
    assert forall k :: 1 <= k < |r| ==> r[k] == rest[k - 1];
  }

  /** Lines 120-125: the list with the most blocks, ties going to the
      earlier pattern. */
  function MostBlocks(b1: seq<string>, b2: seq<string>, b3: seq<string>): seq<string> {
    if |b1| >= |b2| && |b1| >= |b3| then b1
    else if |b2| >= |b1| && |b2| >= |b3| then b2
    else b3
  }

  lemma MostBlocksWins(b1: seq<string>, b2: seq<string>, b3: seq<string>)
    ensures var r := MostBlocks(b1, b2, b3);
      |r| >= |b1| && |r| >= |b2| && |r| >= |b3| &&
      ((|b1| >= |b2| && |b1| >= |b3|) ==> r == b1) &&
      ((|b2| > |b1| && |b2| >= |b3|) ==> r == b2) &&
      ((|b3| > |b1| && |b3| > |b2|) ==> r == b3)
  {
  }

  function KeepStripped(): string -> bool {
    (b: string) => Strip(b) != []
  }

  function Stripped(): string -> string {
    (b: string) => Strip(b)
  }

  /** The blocks the three patterns find, and the one the function keeps. */
  function ChosenBlocks(ap: string): seq<string> {
    var blocks := MostBlocks(NumberedBlocks(ap, 0, Dot), NumberedBlocks(ap, 0, Paren), NumberedBlocks(ap, 0, Dash));
    if blocks == [] then IcdBlocks(ap, 0) else blocks
  }

  /** `extract_condition_blocks`: the chosen blocks, stripped, blank ones
      dropped. */
  function ConditionBlocks(ap: string): seq<string> {
    FilterMap(ChosenBlocks(ap), KeepStripped(), Stripped())
  }

  /** Every block returned is non-empty and its own `strip()`. */
  lemma ConditionBlocksClean(ap: string)
    ensures forall b :: b in ConditionBlocks(ap) ==> b != [] && Strip(b) == b
  {
    var chosen := ChosenBlocks(ap);
    FilterMapFrom(chosen, KeepStripped(), Stripped());
    forall b | b in ConditionBlocks(ap) ensures b != [] && Strip(b) == b {
      var k :| 0 <= k < |chosen| && KeepStripped()(chosen[k]) && b == Stripped()(chosen[k]);
      StripProperties(chosen[k]);
    }
  }

  /** When a numbered pattern finds blocks, the most numerous list is kept and
      none of its blocks is dropped; the blocks of the line-130 pattern are
      used only when all three numbered patterns find nothing. */
  lemma ConditionBlocksSource(ap: string)
    ensures var b1, b2, b3 := NumberedBlocks(ap, 0, Dot), NumberedBlocks(ap, 0, Paren), NumberedBlocks(ap, 0, Dash);
      var blocks := MostBlocks(b1, b2, b3);
      (blocks != [] ==> (ConditionBlocks(ap) == Map(blocks, Stripped()) &&
         |ConditionBlocks(ap)| == |blocks| && |blocks| >= |b1| && |blocks| >= |b2| && |blocks| >= |b3|)) &&
      (blocks == [] <==> (b1 == [] && b2 == [] && b3 == [])) &&
      (blocks == [] ==> ConditionBlocks(ap) == FilterMap(IcdBlocks(ap, 0), KeepStripped(), Stripped()))
  {
    var blocks := MostBlocks(NumberedBlocks(ap, 0, Dot), NumberedBlocks(ap, 0, Paren), NumberedBlocks(ap, 0, Dash));
    if blocks != [] {
      forall k | 0 <= k < |blocks| ensures KeepStripped()(blocks[k]) {
        KeptByStrip(blocks[k], 0);
      }
      FilterMapAll(blocks, KeepStripped(), Stripped());
    }
  }

  /** The ICD-line fallback drops nothing either: each of its blocks holds a
      code letter, which strip() keeps. */
  lemma IcdFallbackKeepsAll(ap: string)
    ensures FilterMap(IcdBlocks(ap, 0), KeepStripped(), Stripped()) == Map(IcdBlocks(ap, 0), Stripped())
  {
    var blocks := IcdBlocks(ap, 0);
    forall k | 0 <= k < |blocks| ensures KeepStripped()(blocks[k]) {
      var j :| 0 <= j < |blocks[k]| && IsUpper(blocks[k][j]);
      KeptByStrip(blocks[k], j);
    }
    FilterMapAll(blocks, KeepStripped(), Stripped());
  }

  /** Two entries, one per line. */
  const TwoEntries := "1. a\n2. b"

  lemma TwoEntriesEnds()
    ensures BlockEndFrom(TwoEntries, 3, Dot) == 4
    ensures BlockEndFrom(TwoEntries, 8, Dot) == 9
  {
    assert MarkerEnd(TwoEntries, 5, Dot) == Some(7);
    assert IsBlockEnd(TwoEntries, 4, Dot);
  }

  lemma TwoEntriesExample()
    ensures NumberedBlocks(TwoEntries, 0, Dot) == ["1. a", "2. b"]
  {
    TwoEntriesFirst();
    TwoEntriesSecond();
    TwoEntriesSlices();
  }

  lemma TwoEntriesFirst()
    ensures NumberedBlocks(TwoEntries, 0, Dot) == [TwoEntries[0..4]] + NumberedBlocks(TwoEntries, 4, Dot)
  {
    TwoEntriesEnds();
    assert GroupStartAt(TwoEntries, 0, Dot) == Some((0, 2));
  }

  lemma TwoEntriesSecond()
    ensures NumberedBlocks(TwoEntries, 4, Dot) == [TwoEntries[5..9]]
  {
    TwoEntriesEnds();
    assert GroupStartAt(TwoEntries, 4, Dot) == Some((5, 7));
    assert NumberedBlocks(TwoEntries, 9, Dot) == [];
  }

  lemma TwoEntriesSlices()
    ensures TwoEntries[0..4] == "1. a" && TwoEntries[5..9] == "2. b"
  {
  }

  /** An entry with nothing after its marker: the `\s*` after "1." takes the
      newline, so the next entry is not seen as a boundary and both lines form
      one block. */
  const EmptyFirstEntry := "1.\n2. b"

  lemma EmptyFirstEntryEnd()
    ensures BlockEndFrom(EmptyFirstEntry, 3, Dot) == 7
  {
  }

  lemma EmptyFirstEntryExample()
    ensures NumberedBlocks(EmptyFirstEntry, 0, Dot) == [EmptyFirstEntry]
  {
    EmptyFirstEntryEnd();
    assert GroupStartAt(EmptyFirstEntry, 0, Dot) == Some((0, 2));
    assert SpacesEnd(EmptyFirstEntry, 2) == 3;
    assert NumberedBlocks(EmptyFirstEntry, 7, Dot) == [];
    assert EmptyFirstEntry[0..7] == EmptyFirstEntry;
  }
}

/** The ICD-10 pattern `[A-TV-Z][0-9][0-9AB]\.?[0-9A-TV-Z]{0,4}` used by
    `match_icd10_codes` (utils/extras/test2.py, and the broken copy in
    utils/regex/regex_utils.py). The optional '.' and the bounded tail are
    greedy and nothing follows them in the pattern, so the first choice the
    engine makes always succeeds: a match is decided without backtracking. */
module Icd10 {
  import opened Wrappers
  import opened Text
  import opened Lists

  /** `[A-TV-Z]`: an upper-case ASCII letter other than 'U'. */
  predicate IsLeadChar(c: char) { IsUpper(c) && c != 'U' }

  /** `[0-9AB]`. */
  predicate IsThirdChar(c: char) { IsDigit(c) || c == 'A' || c == 'B' }

  /** `[0-9A-TV-Z]`. */
  predicate IsTailChar(c: char) { IsDigit(c) || IsLeadChar(c) }

  /** The strings the pattern matches as a whole: a lead letter, a digit, a
      digit or 'A'/'B', an optional '.', then at most four tail characters. */
  predicate IsIcd10Code(c: string) {
    |c| >= 3 && IsLeadChar(c[0]) && IsDigit(c[1]) && IsThirdChar(c[2]) &&
    var t := if |c| > 3 && c[3] == '.' then 4 else 3;
    |c| - t <= 4 && forall j :: t <= j < |c| ==> IsTailChar(c[j])
  }

  /** The end of the greedy `[0-9A-TV-Z]{0,n}` starting at `p`. */
  function TailEnd(s: string, p: nat, n: nat): (k: nat)
    requires p <= |s|
    ensures p <= k <= p + n && k <= |s|
    ensures forall j :: p <= j < k ==> IsTailChar(s[j])
    ensures k < p + n && k < |s| ==> !IsTailChar(s[k])
    decreases n
  {
    if n == 0 || p == |s| || !IsTailChar(s[p]) then p else TailEnd(s, p + 1, n - 1)
  }

  /** The end of the match that starts at `i`, if one starts there. */
  function CodeAt(s: string, i: nat): (r: Option<nat>)
    requires i <= |s|
    ensures r.Some? ==> i + 3 <= r.value <= i + 8 && r.value <= |s|
    ensures r.Some? ==> IsIcd10Code(s[i..r.value])
    ensures r.None? ==> !(i + 3 <= |s| && IsLeadChar(s[i]) && IsDigit(s[i + 1]) && IsThirdChar(s[i + 2]))
  {
    if i + 3 <= |s| && IsLeadChar(s[i]) && IsDigit(s[i + 1]) && IsThirdChar(s[i + 2]) then
      var p := if i + 3 < |s| && s[i + 3] == '.' then i + 4 else i + 3;
      var e := TailEnd(s, p, 4);
      var c := s[i..e];
      assert forall j :: 0 <= j < |c| ==> c[j] == s[i + j];
      Some(e)
    else None
  }

  /** `re.findall(pattern, s[i..])`: the non-overlapping matches from left to
      right, each a whole ICD-10 code that occurs in `s`. */
  function FindAllCodes(s: string, i: nat): (r: seq<string>)
    requires i <= |s|
    ensures forall k :: 0 <= k < |r| ==> IsIcd10Code(r[k])
    ensures forall k :: 0 <= k < |r| ==> Occurs(s, r[k])
    decreases |s| - i
  {
    if i == |s| then []
    else
      match CodeAt(s, i)
      case Some(e) =>
        var rest := FindAllCodes(s, e);
        var r := [s[i..e]] + rest;
        assert IsAt(s, r[0], i);
        assert forall k :: 1 <= k < |r| ==> r[k] == rest[k - 1];
        r
      case None => FindAllCodes(s, i + 1)
  }

  function MatchTest(s: string): nat -> bool {
    (j: nat) => j <= |s| && CodeAt(s, j).Some?
  }

  /** The leftmost position at or after `i` where a match starts. */
  function FirstMatchFrom(s: string, i: nat): (r: Option<nat>)
    requires i <= |s|
    ensures r.Some? ==> i <= r.value < |s| && CodeAt(s, r.value).Some?
    ensures r.Some? ==> forall j :: i <= j < r.value ==> CodeAt(s, j).None?
    ensures r.None? ==> forall j :: i <= j <= |s| ==> CodeAt(s, j).None?
  {
    var p := MatchTest(s);
    assert forall j: nat :: p(j) == (j <= |s| && CodeAt(s, j).Some?);
    FirstWhere(p, i, |s|)
  }

  /** The first element of `findall` is the match at the leftmost position
      where one starts, and `findall` is empty exactly when no match starts. */
  lemma {:induction false} FindAllFirst(s: string, i: nat)
    requires i <= |s|
    ensures FindAllCodes(s, i) == [] <==> FirstMatchFrom(s, i).None?
    ensures FirstMatchFrom(s, i).Some? ==>
      var j := FirstMatchFrom(s, i).value; FindAllCodes(s, i)[0] == s[j..CodeAt(s, j).value]
    decreases |s| - i
  {
    if i < |s| && CodeAt(s, i).None? {
      FindAllFirst(s, i + 1);
      assert FirstMatchFrom(s, i) == FirstMatchFrom(s, i + 1);
    }
  }

  /** `match_icd10_codes` of utils/extras/test2.py: a non-string raises
      TypeError; otherwise the first element of `findall`, or `None`. */
  function MatchIcd10Code(text: PyArg): Outcome<Option<string>> {
    match text
    case PyNonStr => Raises("TypeError", "Input must be a string.")
    case PyStr(t) =>
      var matches := FindAllCodes(t, 0);
      Returns(if matches != [] then Some(matches[0]) else None)
  }

  /** What `match_icd10_codes` returns for a string: the leftmost match, which
      is an ICD-10 code of three to eight characters, or `None` when the
      pattern matches nowhere; and only a non-string raises. */
  lemma MatchIcd10CodeMeaning(text: PyArg)
    ensures MatchIcd10Code(text).Raises? <==> text.PyNonStr?
    ensures text.PyNonStr? ==> MatchIcd10Code(text).kind == "TypeError"
    ensures text.PyStr? && MatchIcd10Code(text).value.Some? ==>
      LeftmostCode(text.text, MatchIcd10Code(text).value.value)
    ensures text.PyStr? && MatchIcd10Code(text).value.Some? ==>
      var c := MatchIcd10Code(text).value.value; IsIcd10Code(c) && 3 <= |c| <= 8
    ensures text.PyStr? && MatchIcd10Code(text).value.None? ==>
      forall j :: 0 <= j <= |text.text| ==> CodeAt(text.text, j).None?
  {
    if text.PyStr? {
      FirstCodeMeaning(text.text);
    }
  }

  /** The first element of `findall` on a string, if there is one: the match
      at the leftmost start, an ICD-10 code of three to eight characters. */
  lemma FirstCodeMeaning(t: string)
    ensures FindAllCodes(t, 0) != [] ==> LeftmostCode(t, FindAllCodes(t, 0)[0])
    ensures FindAllCodes(t, 0) != [] ==> IsIcd10Code(FindAllCodes(t, 0)[0]) && 3 <= |FindAllCodes(t, 0)[0]| <= 8
    ensures FindAllCodes(t, 0) == [] ==> forall j :: 0 <= j <= |t| ==> CodeAt(t, j).None?
  {
    FindAllFirst(t, 0);
    if FirstMatchFrom(t, 0).Some? {
      var j := FirstMatchFrom(t, 0).value;
      LeftmostAt(t, j, FindAllCodes(t, 0)[0]);
    }
  }

  /** A match at `j` with no match before it is the leftmost match. */
  lemma LeftmostAt(t: string, j: nat, c: string)
    requires j <= |t| && CodeAt(t, j).Some? && c == t[j..CodeAt(t, j).value]
    requires forall k :: 0 <= k < j ==> CodeAt(t, k).None?
    ensures LeftmostCode(t, c) && IsIcd10Code(c) && 3 <= |c| <= 8
  {
    var e := CodeAt(t, j).value;
    assert e == j + |c|;
  }

  /** `c` is the match at the leftmost position where the pattern matches. */
  ghost predicate LeftmostCode(t: string, c: string) {
    exists j :: 0 <= j < |t| && CodeAt(t, j) == Some(j + |c|) && c == t[j..j + |c|] &&
      (forall k :: 0 <= k < j ==> CodeAt(t, k).None?)
  }

  /** Two lines of the COPD entry the module's test uses: "O2-" in "SPO2" is not
      a match because '-' cannot be the third character, so the code is the
      first match. */
  const CopdExcerpt := "SPO2-98%\nJ44.9: COPD"

  lemma CopdMatchAt()
    ensures CodeAt(CopdExcerpt, 9) == Some(14)
  {
    assert TailEnd(CopdExcerpt, 13, 4) == 14;
  }

  lemma CopdNoEarlierMatch()
    ensures forall j :: 0 <= j < 9 ==> CodeAt(CopdExcerpt, j).None?
  {
  }

  lemma CopdExample()
    ensures MatchIcd10Code(PyStr(CopdExcerpt)) == Returns(Some("J44.9"))
  {
    CopdMatchAt();
    CopdNoEarlierMatch();
    FindAllFirst(CopdExcerpt, 0);
    CopdCode();
  }

  lemma CopdCode()
    ensures CopdExcerpt[9..14] == "J44.9"
  {
  }

  /** The last two lines of the diabetes entry of utils/extras/test2.py: the
      tail after the '.' is taken greedily. */
  const DiabetesExcerpt := "nuts\nE11.65: Type 2"

  lemma DiabetesMatchAt()
    ensures CodeAt(DiabetesExcerpt, 5) == Some(11)
  {
    assert TailEnd(DiabetesExcerpt, 11, 2) == 11;
    assert TailEnd(DiabetesExcerpt, 9, 4) == 11;
  }

  lemma DiabetesNoEarlierMatch()
    ensures forall j :: 0 <= j < 5 ==> CodeAt(DiabetesExcerpt, j).None?
  {
  }

  lemma DiabetesExample()
    ensures MatchIcd10Code(PyStr(DiabetesExcerpt)) == Returns(Some("E11.65"))
  {
    DiabetesMatchAt();
    DiabetesNoEarlierMatch();
    FindAllFirst(DiabetesExcerpt, 0);
    DiabetesCode();
  }

  lemma DiabetesCode()
    ensures DiabetesExcerpt[5..11] == "E11.65"
  {
  }
}

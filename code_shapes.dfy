/** The ICD-10 code shape `[A-Z]\d+\.\d+` that several extractors search for
    (packages/workflows/hcc_extractor/v0/agent/nodes/condition/extraction.py and
    packages/framework/document_loaders/note_loader/__init__.py). Both digit
    runs are greedy and neither can give a character back to the next item of
    the pattern, so a match is decided without backtracking. */
module CodeShapes {
  import opened Wrappers
  import opened Text

  /** The end of a match of `[A-Z]\d+\.\d+` starting at `i`, if there is one. */
  function DottedCodeAt(s: string, i: nat): (r: Option<nat>)
    requires i <= |s|
    ensures r.Some? ==> i + 4 <= r.value <= |s| && IsUpper(s[i])
  {
    if i < |s| && IsUpper(s[i]) then
      var d := DigitsEnd(s, i + 1);
      if d > i + 1 && d < |s| && s[d] == '.' then
        var e := DigitsEnd(s, d + 1);
        if e > d + 1 then Some(e) else None
      else None
    else None
  }

  /** The whole of `c` is one dotted code. */
  predicate IsDottedCode(c: string) {
    DottedCodeAt(c, 0) == Some(|c|)
  }

  /** A dotted code opens with a letter and ends with a digit, so `strip()`
      leaves it as it is. */
  lemma DottedStripped(c: string)
    requires IsDottedCode(c)
    ensures Strip(c) == c
  {
    var d := DigitsEnd(c, 1);
    assert IsDigit(c[|c| - 1]);
    LStripIdentity(c);
    SpacesStartAt(c, |c|, |c|);
  }

  /** A dotted code matched inside a text is a dotted code on its own. */
  lemma DottedCodeSlice(s: string, i: nat)
    requires i <= |s| && DottedCodeAt(s, i).Some?
    ensures IsDottedCode(s[i..DottedCodeAt(s, i).value])
  {
    var e := DottedCodeAt(s, i).value;
    var c := s[i..e];
    var d := DigitsEnd(s, i + 1);
    DigitsEndAt(c, 1, d - i);
    DigitsEndAt(c, d - i + 1, e - i);
  }

  /** `re.findall(r"[A-Z]\d+\.\d+", s[i..])`: the non-overlapping matches from
      left to right; each is a dotted code that occurs in `s`. */
  function DottedCodes(s: string, i: nat): (r: seq<string>)
    requires i <= |s|
    ensures forall k :: 0 <= k < |r| ==> IsDottedCode(r[k])
    ensures forall k :: 0 <= k < |r| ==> Occurs(s, r[k])
    decreases |s| - i
  {
    if i == |s| then []
    else
      match DottedCodeAt(s, i)
      case Some(e) =>
        DottedCodeSlice(s, i);
        var rest := DottedCodes(s, e);
        var r := [s[i..e]] + rest;
        assert IsAt(s, r[0], i);
        assert forall k :: 1 <= k < |r| ==> r[k] == rest[k - 1];
        r
      case None => DottedCodes(s, i + 1)
  }

  /** A text without a dotted code in it yields no codes. */
  lemma NoCodesWithoutUpper(s: string, i: nat)
    requires i <= |s|
    requires forall j :: i <= j < |s| ==> !IsUpper(s[j])
    ensures DottedCodes(s, i) == []
    decreases |s| - i
  {
    if i < |s| {
      NoCodesWithoutUpper(s, i + 1);
    }
  }

  /** The end of a match of `[A-Z]\d+\.?\d*` starting at `i`, read greedily:
      the letter, the digits, a '.' if one follows, and the digits after it. */
  function LooseCodeAt(s: string, i: nat): (r: Option<nat>)
    requires i <= |s|
    ensures r.Some? ==> i + 2 <= r.value <= |s| && IsUpper(s[i]) && IsDigit(s[i + 1])
  {
    if i < |s| && IsUpper(s[i]) then
      var d := DigitsEnd(s, i + 1);
      if d > i + 1 then
        if d < |s| && s[d] == '.' then Some(DigitsEnd(s, d + 1)) else Some(d)
      else None
    else None
  }

  /** The whole of `c` is one such code. */
  predicate IsLooseCode(c: string) {
    LooseCodeAt(c, 0) == Some(|c|)
  }

  /** A code matched inside a text is a code on its own. */
  lemma LooseCodeSlice(s: string, i: nat)
    requires i <= |s| && LooseCodeAt(s, i).Some?
    ensures IsLooseCode(s[i..LooseCodeAt(s, i).value])
  {
    var e := LooseCodeAt(s, i).value;
    var c := s[i..e];
    var d := DigitsEnd(s, i + 1);
    DigitsEndAt(c, 1, d - i);
    if d < |s| && s[d] == '.' {
      DigitsEndAt(c, d - i + 1, e - i);
    }
  }

  /** Every dotted code has the looser shape too. */
  lemma DottedIsLoose(c: string)
    requires IsDottedCode(c)
    ensures IsLooseCode(c)
  {
  }
}

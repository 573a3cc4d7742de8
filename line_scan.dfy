/** What the two per-line code scanners (utils/relevantHCCcodes.py and
    test1.py) share: each line's match, if any, loses its ':' and '.'
    characters and is stripped; the codes are returned in line order, or an
    error string when there are none. */
module LineScan {
  import opened Text
  import opened Lists
  import opened Wrappers

  /** A list of codes, or the error string returned in its place. */
  datatype ScanResult = Codes(codes: seq<string>) | Error(message: string)

  const NoCodesFound := "Error: No Codes Found"

  /** `m.replace(':', '').replace('.', '').strip()`. */
  function CleanCode(m: string): string {
    Strip(RemoveChar(RemoveChar(m, ':'), '.'))
  }

  function HasMatch(matcher: string -> Option<string>): string -> bool {
    (line: string) => matcher(line).Some?
  }

  function CleanedMatch(matcher: string -> Option<string>): string -> string {
    (line: string) => match matcher(line) case Some(x) => CleanCode(x) case None => ""
  }

  /** The codes of the matching lines, in order. */
  function Scan(lines: seq<string>, matcher: string -> Option<string>): seq<string> {
    FilterMap(lines, HasMatch(matcher), CleanedMatch(matcher))
  }

  /** `return codes if codes else "Error: No Codes Found"`. */
  function Result(codes: seq<string>): ScanResult {
    if codes != [] then Codes(codes) else Error(NoCodesFound)
  }

  /** One line more: its cleaned match is appended when it has one. */
  lemma ScanStep(lines: seq<string>, i: nat, matcher: string -> Option<string>)
    requires i < |lines|
    ensures Scan(lines[..i + 1], matcher) ==
      Scan(lines[..i], matcher) + (if matcher(lines[i]).Some? then [CleanCode(matcher(lines[i]).value)] else [])
  {
    FilterMapPrefixStep(lines, i, HasMatch(matcher), CleanedMatch(matcher));
  }

  /** A line with a match appends its cleaned match to the scan so far. */
  lemma ScanHit(lines: seq<string>, i: nat, matcher: string -> Option<string>, acc: seq<string>, m: string)
    requires i < |lines| && Scan(lines[..i], matcher) == acc && matcher(lines[i]) == Some(m)
    ensures Scan(lines[..i + 1], matcher) == acc + [CleanCode(m)]
  {
    ScanStep(lines, i, matcher);
  }

  /** A line without a match leaves the scan so far as it is. */
  lemma ScanMiss(lines: seq<string>, i: nat, matcher: string -> Option<string>, acc: seq<string>)
    requires i < |lines| && Scan(lines[..i], matcher) == acc && matcher(lines[i]) == None
    ensures Scan(lines[..i + 1], matcher) == acc
  {
    ScanStep(lines, i, matcher);
    assert acc + [] == acc;
  }
  /** A run of lines without a match leaves the scan so far as it is. */
  lemma {:induction false} ScanMisses(lines: seq<string>, i: nat, j: nat, matcher: string -> Option<string>, acc: seq<string>)
    requires i <= j <= |lines| && Scan(lines[..i], matcher) == acc
    requires forall k :: i <= k < j ==> matcher(lines[k]).None?
    ensures Scan(lines[..j], matcher) == acc
    decreases j - i
  {
    if i < j {
      ScanMiss(lines, i, matcher, acc);
      ScanMisses(lines, i + 1, j, matcher, acc);
    }
  }

  /** Lines of which exactly two match scan to those two cleaned matches. */
  lemma ScanOfTwoHits(lines: seq<string>, matcher: string -> Option<string>, a: nat, b: nat, ma: string, mb: string)
    requires a < b < |lines|
    requires matcher(lines[a]) == Some(ma) && matcher(lines[b]) == Some(mb)
    requires forall k :: 0 <= k < |lines| && k != a && k != b ==> matcher(lines[k]).None?
    ensures Scan(lines, matcher) == [CleanCode(ma), CleanCode(mb)]
  {
    var ca := CleanCode(ma);
    ScanToFirstHit(lines, matcher, a, ma);
    ScanToNextHit(lines, matcher, a, b, [ca], mb);
    ScanMisses(lines, b + 1, |lines|, matcher, [ca] + [CleanCode(mb)]);
    assert lines[..|lines|] == lines;
  }

  /** The scan up to and including the first matching line. */
  lemma ScanToFirstHit(lines: seq<string>, matcher: string -> Option<string>, a: nat, ma: string)
    requires a < |lines| && matcher(lines[a]) == Some(ma)
    requires forall k :: 0 <= k < a ==> matcher(lines[k]).None?
    ensures Scan(lines[..a + 1], matcher) == [CleanCode(ma)]
  {
    assert lines[..0] == [];
    ScanMisses(lines, 0, a, matcher, []);
    ScanHit(lines, a, matcher, [], ma);
  }

  /** The scan up to and including the next matching line after `a`. */
  lemma ScanToNextHit(lines: seq<string>, matcher: string -> Option<string>, a: nat, b: nat, acc: seq<string>, mb: string)
    requires a < b < |lines| && matcher(lines[b]) == Some(mb)
    requires Scan(lines[..a + 1], matcher) == acc
    requires forall k :: a < k < b ==> matcher(lines[k]).None?
    ensures Scan(lines[..b + 1], matcher) == acc + [CleanCode(mb)]
  {
    ScanMisses(lines, a + 1, b, matcher, acc);
    ScanHit(lines, b, matcher, acc, mb);
  }

  /** The error string comes back exactly when no line matches; otherwise
      every code is the cleaned match of a line, and every matching line
      gives its code. */
  lemma ScanMeaning(lines: seq<string>, matcher: string -> Option<string>)
    ensures Result(Scan(lines, matcher)).Error? <==> forall k :: 0 <= k < |lines| ==> matcher(lines[k]).None?
    ensures Result(Scan(lines, matcher)).Error? ==> Result(Scan(lines, matcher)).message == NoCodesFound
    ensures forall c :: c in Scan(lines, matcher) ==>
      exists k :: 0 <= k < |lines| && matcher(lines[k]).Some? && c == CleanCode(matcher(lines[k]).value)
    ensures forall k :: 0 <= k < |lines| && matcher(lines[k]).Some? ==>
      CleanCode(matcher(lines[k]).value) in Scan(lines, matcher)
  {
    var keep, f := HasMatch(matcher), CleanedMatch(matcher);
    if forall k :: 0 <= k < |lines| ==> matcher(lines[k]).None? {
      FilterMapNone(lines, keep, f);
    } else {
      var k :| 0 <= k < |lines| && matcher(lines[k]).Some?;
      FilterMapHas(lines, k, keep, f);
    }
    FilterMapFrom(lines, keep, f);
    forall k | 0 <= k < |lines| && matcher(lines[k]).Some?
      ensures CleanCode(matcher(lines[k]).value) in Scan(lines, matcher)
    {
      FilterMapHas(lines, k, keep, f);
    }
  }

  /** Cleaning a match with one '.' and no ':' or white space joins the
      parts on either side of the '.'. */
  lemma CleanDotted(a: string, b: string)
    requires ':' !in a && ':' !in b && '.' !in a && '.' !in b
    requires |a| > 0 && !IsSpace(a[0]) && !IsSpace((a + b)[|a + b| - 1])
    ensures CleanCode(a + ['.'] + b) == a + b
  {
    assert ':' !in a + ['.'] + b;
    DropMiddle(a, b, '.');
    StripOfTrimmed(a + b);
  }

  /** A string with no white space at either end is its own `strip()`. */
  lemma StripOfTrimmed(x: string)
    requires |x| > 0 && !IsSpace(x[0]) && !IsSpace(x[|x| - 1])
    ensures Strip(x) == x
  {
    LStripIdentity(x);
    SpacesStartAt(x, |x|, |x|);
  }

  /** White space in front of such a string is what `strip()` removes. */
  lemma StripOfIndented(w: string, x: string)
    requires IsBlank(w) && |x| > 0 && !IsSpace(x[0]) && !IsSpace(x[|x| - 1])
    ensures Strip(w + x) == x
  {
    SpacesEndAt(w + x, 0, |w|);
    assert LStrip(w + x) == x;
    StripOfTrimmed(x);
  }
}

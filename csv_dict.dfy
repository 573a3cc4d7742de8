/** The line loop of `convert_txt_to_json` in utils/convertCSVtoDictionary.py:
    each stripped line is split on every ',', and a line with at least two
    fields maps its first field to its second, both stripped, with every
    '"' removed from the second. */
module CsvDict {
  import opened Wrappers
  import opened Text

  /** The entry a line contributes, if it has two fields or more. */
  function LineEntry(line: string): (r: Option<(string, string)>)
    ensures r.Some? ==> '"' !in r.value.1
    ensures r.Some? <==> ',' in Strip(line)
  {
    var parts := Split(Strip(line), ',');
    SplitCount(Strip(line), ',');
    if |parts| >= 2 then Some((Strip(parts[0]), RemoveChar(Strip(parts[1]), '"'))) else None
  }

  /** The dictionary built from the lines' entries, in order: a later entry
      overwrites an earlier one with the same key. */
  function Collect(lines: seq<string>, entry: string -> Option<(string, string)>): map<string, string>
    decreases |lines|
  {
    if lines == [] then map[]
    else
      var data := Collect(lines[..|lines| - 1], entry);
      match entry(lines[|lines| - 1])
      case None => data
      case Some((code, description)) => data[code := description]
  }

  /** The dictionary `convert_txt_to_json` writes. */
  function Converted(lines: seq<string>): map<string, string> {
    Collect(lines, LineEntry)
  }

  method ConvertLines(lines: seq<string>) returns (data: map<string, string>)
    ensures data == Converted(lines)
  {
    data := map[];
    var i := 0;
    while i < |lines|
      invariant 0 <= i <= |lines|
      invariant data == Collect(lines[..i], LineEntry)
    {
      var line := Strip(lines[i]);
      var parts := Split(line, ',');
      assert lines[..i + 1][..i] == lines[..i];
      if |parts| >= 2 {
        var code := Strip(parts[0]);
        var description := Strip(parts[1]);
        data := data[code := RemoveChar(description, '"')];
      }
      i := i + 1;
    }
    assert lines[..|lines|] == lines;
  }

  /** Line `k` has an entry for `code`, and no later line has one. */
  ghost predicate LastWithCode(lines: seq<string>, entry: string -> Option<(string, string)>, code: string, k: nat) {
    k < |lines| && entry(lines[k]).Some? && entry(lines[k]).value.0 == code &&
    forall j :: k < j < |lines| && entry(lines[j]).Some? ==> entry(lines[j]).value.0 != code
  }

  /** Every key comes from the last line with that key and holds that line's
      value. */
  lemma {:induction false} CollectFromLast(lines: seq<string>, entry: string -> Option<(string, string)>)
    ensures forall code :: code in Collect(lines, entry) ==>
      exists k: nat :: LastWithCode(lines, entry, code, k) && Collect(lines, entry)[code] == entry(lines[k]).value.1
    decreases |lines|
  {
    if lines != [] {
      var init, last := lines[..|lines| - 1], lines[|lines| - 1];
      CollectFromLast(init, entry);
      var data := Collect(lines, entry);
      forall code | code in data
        ensures exists k: nat :: LastWithCode(lines, entry, code, k) && data[code] == entry(lines[k]).value.1
      {
        if entry(last).Some? && entry(last).value.0 == code {
          assert LastWithCode(lines, entry, code, |lines| - 1);
        } else {
          assert code in Collect(init, entry);
          var k: nat :| LastWithCode(init, entry, code, k) && Collect(init, entry)[code] == entry(init[k]).value.1;
          assert init[k] == lines[k];
          assert LastWithCode(lines, entry, code, k);
        }
      }
    }
  }

  /** Every line with an entry puts its key in the dictionary. */
  lemma {:induction false} CollectKeys(lines: seq<string>, entry: string -> Option<(string, string)>)
    ensures forall k :: 0 <= k < |lines| && entry(lines[k]).Some? ==> entry(lines[k]).value.0 in Collect(lines, entry)
    decreases |lines|
  {
    if lines != [] {
      var init := lines[..|lines| - 1];
      CollectKeys(init, entry);
      forall k | 0 <= k < |lines| && entry(lines[k]).Some?
        ensures entry(lines[k]).value.0 in Collect(lines, entry)
      {
        if k < |init| {
          assert init[k] == lines[k];
        }
      }
    }
  }

  /** Every value of the dictionary is the value of some line's entry. */
  lemma {:induction false} CollectValues(lines: seq<string>, entry: string -> Option<(string, string)>)
    ensures forall code :: code in Collect(lines, entry) ==>
      exists k :: 0 <= k < |lines| && entry(lines[k]) == Some((code, Collect(lines, entry)[code]))
  {
    CollectFromLast(lines, entry);
    forall code | code in Collect(lines, entry)
      ensures exists k :: 0 <= k < |lines| && entry(lines[k]) == Some((code, Collect(lines, entry)[code]))
    {
      var k: nat :| LastWithCode(lines, entry, code, k) && Collect(lines, entry)[code] == entry(lines[k]).value.1;
    }
  }

  /** A code is a key exactly when some line with two fields or more has it,
      the header line included; its description is that of the last such
      line, and no description keeps a '"'. */
  lemma ConvertedMeaning(lines: seq<string>)
    ensures forall code :: code in Converted(lines) ==>
      exists k: nat :: LastWithCode(lines, LineEntry, code, k) && Converted(lines)[code] == LineEntry(lines[k]).value.1
    ensures forall k :: 0 <= k < |lines| && LineEntry(lines[k]).Some? ==> LineEntry(lines[k]).value.0 in Converted(lines)
    ensures forall code :: code in Converted(lines) ==> '"' !in Converted(lines)[code]
  {
    CollectFromLast(lines, LineEntry);
    CollectKeys(lines, LineEntry);
    CollectValues(lines, LineEntry);
    forall code | code in Converted(lines) ensures '"' !in Converted(lines)[code] {
      var k :| 0 <= k < |lines| && LineEntry(lines[k]) == Some((code, Converted(lines)[code]));
    }
  }
}

/** The condition output parser of the framework
    (packages/framework/output_parsers/condition_output_parser.py): the code
    validator of `ExtractedCondition` and `ConditionOutputParser.parse`. JSON
    decoding is an input: `decode` stands for `json.loads` on the bracketed
    span. */
module OutputParser {
  import opened Wrappers
  import opened Text
  import opened Lists
  import opened CodeShapes
  import opened Records

  const InvalidCodePrefix := "Invalid ICD-10 code format: "

  /** `re.match(r"^[A-Z]\d+\.?\d*$", v)`: the greedy code reading of `v`
      reaches its end, or stops at a final newline, where `$` also matches.
      A shorter reading would leave a digit or '.' in front of `$`. */
  predicate CodeFormatOk(v: string) {
    match LooseCodeAt(v, 0)
    case None => false
    case Some(e) => e == |v| || (e + 1 == |v| && v[e] == '\n')
  }

  /** `validate_code_format`: the value itself, or a ValueError naming it. */
  function ValidateCodeFormat(v: string): Outcome<string> {
    if CodeFormatOk(v) then Returns(v) else Raises("ValueError", InvalidCodePrefix + v)
  }

  /** A valid value is a code, possibly followed by one newline; anything
      else raises ValueError with the value in the message. */
  lemma ValidateCodeFormatMeaning(v: string)
    ensures ValidateCodeFormat(v).Returns? <==>
      (IsLooseCode(v) || (|v| > 0 && v[|v| - 1] == '\n' && IsLooseCode(v[..|v| - 1])))
    ensures ValidateCodeFormat(v).Returns? ==> ValidateCodeFormat(v).value == v
    ensures ValidateCodeFormat(v).Raises? ==>
      ValidateCodeFormat(v).kind == "ValueError" && ValidateCodeFormat(v).message == InvalidCodePrefix + v
  {
    if |v| > 0 && v[|v| - 1] == '\n' && IsLooseCode(v[..|v| - 1]) {
      LooseCodeOfPrefix(v);
    }
    if LooseCodeAt(v, 0).Some? {
      var e := LooseCodeAt(v, 0).value;
      LooseCodeSlice(v, 0);
      assert v[0..e] == v[..e];
    }
  }

  /** A code followed by a newline reads as the same code. */
  lemma LooseCodeOfPrefix(v: string)
    requires |v| > 0 && v[|v| - 1] == '\n' && IsLooseCode(v[..|v| - 1])
    ensures LooseCodeAt(v, 0) == Some(|v| - 1)
  {
    var w := v[..|v| - 1];
    var d := DigitsEnd(w, 1);
    DigitsEndAt(v, 1, d);
    if d < |w| && w[d] == '.' {
      DigitsEndAt(v, d + 1, DigitsEnd(w, d + 1));
    }
  }

  // ---------------------------------------------------------------------------
  // The text fallback of parse (lines 60-84)
  // ---------------------------------------------------------------------------

  /** `(?:Code|ICD-10|Condition Code):` at `j`: the index after the colon.
      The branches differ by their second or third character, so at most
      one matches at a position. */
  function CodeKeyEnd(s: string, j: nat): (r: Option<nat>)
    ensures r.Some? ==> j < r.value <= |s|
  {
    if IsAt(s, "Code:", j) then Some(j + 5)
    else if IsAt(s, "ICD-10:", j) then Some(j + 7)
    else if IsAt(s, "Condition Code:", j) then Some(j + 15)
    else None
  }

  /** The code pattern of line 63 matches at `j`: the bounds of its group,
      after `\s*`. */
  function CodeMatchAt(s: string, j: nat): (r: Option<(nat, nat)>)
    ensures r.Some? ==> j < r.value.0 < r.value.1 <= |s| && LooseCodeAt(s, r.value.0) == Some(r.value.1)
  {
    match CodeKeyEnd(s, j)
    case None => None
    case Some(k) =>
      var w := SpacesEnd(s, k);
      match LooseCodeAt(s, w)
      case None => None
      case Some(e) => Some((w, e))
  }

  /** `re.findall(code_pattern, s[p..])`: the codes from left to right, each
      a code that occurs in `s`. */
  function TextCodes(s: string, p: nat): (r: seq<string>)
    requires p <= |s|
    ensures forall k :: 0 <= k < |r| ==> IsLooseCode(r[k]) && Occurs(s, r[k])
    decreases |s| - p
  {
    if p == |s| then []
    else
      match CodeMatchAt(s, p)
      case None => TextCodes(s, p + 1)
      case Some((w, e)) =>
        LooseCodeSlice(s, w);
        var rest := TextCodes(s, e);
        CodesCons(s, s[w..e], w, rest);
        [s[w..e]] + rest
  }

  /** Codes that occur in `s` stay so with one more in front. */
  lemma CodesCons(s: string, x: string, w: nat, rest: seq<string>)
    requires IsLooseCode(x) && IsAt(s, x, w)
    requires forall k :: 0 <= k < |rest| ==> IsLooseCode(rest[k]) && Occurs(s, rest[k])
    ensures forall k :: 0 <= k < |[x] + rest| ==> IsLooseCode(([x] + rest)[k]) && Occurs(s, ([x] + rest)[k])
  {
    var r := [x] + rest;
    assert forall k :: 1 <= k < |r| ==> r[k] == rest[k - 1];
  }

  /** `(?:Name|Condition|Condition Name):` at `j`. */
  function NameKeyEnd(s: string, j: nat): (r: Option<nat>)
    ensures r.Some? ==> j < r.value <= |s|
  {
    if IsAt(s, "Name:", j) then Some(j + 5)
    else if IsAt(s, "Condition:", j) then Some(j + 10)
    else if IsAt(s, "Condition Name:", j) then Some(j + 15)
    else None
  }

  /** `(?:Data|Details|Plan|Condition Data):` at `j`. */
  function DataKeyEnd(s: string, j: nat): (r: Option<nat>)
    ensures r.Some? ==> j < r.value <= |s|
  {
    if IsAt(s, "Data:", j) then Some(j + 5)
    else if IsAt(s, "Details:", j) then Some(j + 8)
    else if IsAt(s, "Plan:", j) then Some(j + 5)
    else if IsAt(s, "Condition Data:", j) then Some(j + 15)
    else None
  }

  predicate HasNonNewline(s: string, k: nat) {
    exists m :: k <= m < |s| && s[m] != '\n'
  }

  /** `(?:\n[^\n]+)*` from the line end `e`, greedy: the following lines are
      taken while they are non-empty. */
  function ParagraphEnd(s: string, e: nat): (r: nat)
    requires e <= |s|
    ensures e <= r <= |s|
    decreases |s| - e
  {
    if e + 1 < |s| && s[e] == '\n' && s[e + 1] != '\n' then ParagraphEnd(s, NewlineFrom(s, e + 1)) else e
  }

  /** `\s*([^\n]+)` read from `k`, the group stripped. `\s*` runs over
      newlines; when it reaches the end, backtracking hands the group the
      last white-space character that is not a newline, which strips to "". */
  function LineValue(s: string, k: nat): (r: Option<string>)
    requires k <= |s|
    ensures r.None? <==> !HasNonNewline(s, k)
  {
    var w := SpacesEnd(s, k);
    if w < |s| then Some(Strip(s[w..NewlineFrom(s, w)]))
    else if HasNonNewline(s, k) then Some("") else None
  }

  /** `\s*([^\n]+(?:\n[^\n]+)*)` read from `k`, the group stripped. */
  function ParagraphValue(s: string, k: nat): (r: Option<string>)
    requires k <= |s|
    ensures r.None? <==> !HasNonNewline(s, k)
  {
    var w := SpacesEnd(s, k);
    if w < |s| then Some(Strip(s[w..ParagraphEnd(s, NewlineFrom(s, w))]))
    else if HasNonNewline(s, k) then Some("") else None
  }

  function NameTest(s: string): nat -> bool {
    (j: nat) => NameKeyEnd(s, j).Some? && LineValue(s, NameKeyEnd(s, j).value).Some?
  }

  function DataTest(s: string): nat -> bool {
    (j: nat) => DataKeyEnd(s, j).Some? && ParagraphValue(s, DataKeyEnd(s, j).value).Some?
  }

  /** `re.search(name_pattern, text).group(1).strip()`, if it matches. */
  function NameMatch(s: string): (r: Option<string>)
    ensures r.None? <==> forall j :: 0 <= j <= |s| ==> !NameTest(s)(j)
    ensures r.Some? ==> exists j :: (0 <= j <= |s| && NameTest(s)(j) &&
      (forall k :: 0 <= k < j ==> !NameTest(s)(k)) && r == LineValue(s, NameKeyEnd(s, j).value))
  {
    match FirstWhere(NameTest(s), 0, |s| + 1)
    case None => None
    case Some(j) => LineValue(s, NameKeyEnd(s, j).value)
  }

  /** `re.search(data_pattern, text).group(1).strip()`, if it matches. */
  function DataMatch(s: string): (r: Option<string>)
    ensures r.None? <==> forall j :: 0 <= j <= |s| ==> !DataTest(s)(j)
    ensures r.Some? ==> exists j :: (0 <= j <= |s| && DataTest(s)(j) &&
      (forall k :: 0 <= k < j ==> !DataTest(s)(k)) && r == ParagraphValue(s, DataKeyEnd(s, j).value))
  {
    match FirstWhere(DataTest(s), 0, |s| + 1)
    case None => None
    case Some(j) => ParagraphValue(s, DataKeyEnd(s, j).value)
  }

  /** The entry the loop builds for the `i`-th code from the name and data
      searches. */
  function TextEntry(code: string, name: Option<string>, data: Option<string>, i: nat): Condition {
    Condition(code,
              if name.Some? then name.value else "Condition " + NatToString(i + 1),
              if data.Some? then data.value else "")
  }

  /** The entries for the first `n` codes. */
  function Entries(codes: seq<string>, name: Option<string>, data: Option<string>, n: nat): (r: seq<Condition>)
    requires n <= |codes|
    ensures |r| == n
    ensures forall i :: 0 <= i < n ==> r[i] == TextEntry(codes[i], name, data, i)
  {
    if n == 0 then [] else Entries(codes, name, data, n - 1) + [TextEntry(codes[n - 1], name, data, n - 1)]
  }

  function TextConditions(text: string): seq<Condition> {
    var codes := TextCodes(text, 0);
    Entries(codes, NameMatch(text), DataMatch(text), |codes|)
  }

  /** The loop of lines 71-82: one entry per code, searching the whole text
      for a name and a data field each time. */
  method ParseText(text: string) returns (conditions: seq<Condition>)
    ensures conditions == TextConditions(text)
  {
    var codes := TextCodes(text, 0);
    conditions := [];
    var i := 0;
    while i < |codes|
      invariant 0 <= i <= |codes|
      invariant conditions == Entries(codes, NameMatch(text), DataMatch(text), i)
    {
      var nameMatch := NameMatch(text);
      var dataMatch := DataMatch(text);
      conditions := conditions + [TextEntry(codes[i], nameMatch, dataMatch, i)];
      i := i + 1;
    }
  }

  /** Every entry of the text fallback carries a code that passes
      `validate_code_format`, in the order of `findall`; all entries share
      the first name and data field of the whole text, the name defaulting
      to "Condition <n>" and the data to "". */
  lemma TextConditionsMeaning(text: string)
    ensures var r := TextConditions(text); var codes := TextCodes(text, 0);
      |r| == |codes| &&
      (forall i :: 0 <= i < |r| ==> r[i].code == codes[i] && ValidateCodeFormat(r[i].code) == Returns(r[i].code)) &&
      (forall i :: 0 <= i < |r| ==>
         r[i].name == (if NameMatch(text).Some? then NameMatch(text).value else "Condition " + NatToString(i + 1))) &&
      (forall i :: 0 <= i < |r| ==> r[i].data == (if DataMatch(text).Some? then DataMatch(text).value else ""))
  {
    var codes := TextCodes(text, 0);
    forall i | 0 <= i < |codes| ensures CodeFormatOk(codes[i]) {
      assert IsLooseCode(codes[i]);
    }
  }

  // ---------------------------------------------------------------------------
  // parse (lines 43-84)
  // ---------------------------------------------------------------------------

  function OpenTest(s: string): nat -> bool {
    (b: nat) => b < |s| && s[b] == '['
  }

  function CloseTest(s: string): nat -> bool {
    (e: nat) => 0 < e <= |s| && s[e - 1] == ']'
  }

  /** `re.search(r'\[.*\]', text, re.DOTALL)`: from the first '[' to the last
      ']' after it, as the bounds `b` and `e` of the slice. */
  function JsonSpan(s: string): (r: Option<(nat, nat)>)
    ensures r.Some? ==> r.value.0 < r.value.1 <= |s| && s[r.value.0] == '[' && s[r.value.1 - 1] == ']'
    ensures r.Some? ==> r.value.0 + 1 < r.value.1
    ensures r.Some? ==> forall k :: 0 <= k < r.value.0 ==> s[k] != '['
    ensures r.Some? ==> forall k :: r.value.1 <= k < |s| ==> s[k] != ']'
    ensures r.None? ==> forall b, e :: 0 <= b < e < |s| ==> !(s[b] == '[' && s[e] == ']')
  {
    var o := OpenTest(s);
    var c := CloseTest(s);
    assert forall b: nat :: o(b) == (b < |s| && s[b] == '[');
    assert forall e: nat :: c(e) == (0 < e <= |s| && s[e - 1] == ']');
    match FirstWhere(o, 0, |s|)
    case None => None
    case Some(b) =>
      match LastWhere(c, b + 1, |s|)
      case None =>
        forall e | b < e < |s| ensures s[e] != ']' {
          assert !c(e + 1);
        }
        None
      case Some(e) =>
        forall k | e <= k < |s| ensures s[k] != ']' {
          assert !c(k + 1);
        }
        Some((b, e))
  }

  /** One element of the decoded JSON list, as far as the `in` test of
      `parse` can tell: an object by its keys, an array by the strings it
      holds, a string by its value, and a number, `null` or a boolean, for
      which `in` raises TypeError. */
  datatype Item = Object(keys: set<string>) | Array(strings: set<string>) | Str(value: string) | Scalar

  /** What `json.loads` makes of the span. A span starts with '[' and ends
      with ']', so it is either not JSON or a list. */
  datatype Decoded = Malformed | List(items: seq<Item>)

  /** How `parse` ends: the decoded list, the text entries, or the TypeError
      that escapes its `except` clause. */
  datatype Parsed = JsonList(items: seq<Item>) | TextList(conditions: seq<Condition>) | RaisesTypeError

  const RequiredKeys: seq<string> := ["condition_code", "condition_name", "condition_data"]

  /** `k in item` for an item that does not raise. */
  predicate HasKey(item: Item, k: string)
    requires !item.Scalar?
  {
    match item
    case Object(keys) => k in keys
    case Array(strings) => k in strings
    case Str(value) => Contains(value, k)
  }

  predicate Complete(item: Item) {
    !item.Scalar? && forall k :: 0 <= k < |RequiredKeys| ==> HasKey(item, RequiredKeys[k])
  }

  /** How the validation loop over the items ends. */
  datatype Check = AllComplete | Missing | TypeErr

  /** The validation loop from item `i` on: the first item that is a scalar
      raises TypeError (on its first key already), the first one that lacks a
      key raises ValueError, and otherwise every item passes. */
  function CheckFrom(items: seq<Item>, i: nat): (r: Check)
    requires i <= |items|
    ensures r == AllComplete <==> forall j :: i <= j < |items| ==> Complete(items[j])
    ensures r == TypeErr <==> exists j :: i <= j < |items| && items[j].Scalar? && CompleteBetween(items, i, j)
    ensures r == Missing <==> exists j :: i <= j < |items| && !items[j].Scalar? && !Complete(items[j]) && CompleteBetween(items, i, j)
    decreases |items| - i
  {
    if i == |items| then AllComplete
    else if items[i].Scalar? then TypeErr
    else if !Complete(items[i]) then Missing
    else
      var r := CheckFrom(items, i + 1);
      assert CompleteBetween(items, i, i + 1);
      CompleteBetweenCons(items, i);
      r
  }

  /** Items `i` to `j` (exclusive) all pass. */
  ghost predicate CompleteBetween(items: seq<Item>, i: nat, j: nat)
    requires i <= j <= |items|
  {
    forall m :: i <= m < j ==> Complete(items[m])
  }

  lemma CompleteBetweenCons(items: seq<Item>, i: nat)
    requires i < |items| && Complete(items[i])
    ensures forall j :: i + 1 <= j <= |items| ==> (CompleteBetween(items, i + 1, j) <==> CompleteBetween(items, i, j))
  {
  }

  function Parse(text: string, decode: string -> Decoded): Parsed {
    match JsonSpan(text)
    case None => TextList(TextConditions(text))
    case Some((b, e)) =>
      match decode(text[b..e])
      case Malformed => TextList(TextConditions(text))
      case List(items) =>
        match CheckFrom(items, 0)
        case AllComplete => JsonList(items)
        case Missing => TextList(TextConditions(text))
        case TypeErr => RaisesTypeError
  }

  /** The decoded list of the span, when it decodes. */
  ghost predicate DecodesTo(text: string, decode: string -> Decoded, items: seq<Item>) {
    JsonSpan(text).Some? && decode(text[JsonSpan(text).value.0..JsonSpan(text).value.1]) == List(items)
  }

  /** The decoded list comes back exactly when the bracketed span decodes and
      every item holds the three keys; TypeError escapes exactly when a
      number, `null` or boolean item comes before any item that lacks a key;
      and in every other case (no span, a decode error, a missing key) the
      text fallback decides. */
  lemma ParseMeaning(text: string, decode: string -> Decoded)
    ensures Parse(text, decode).JsonList? <==>
      exists items: seq<Item> :: DecodesTo(text, decode, items) && forall j :: 0 <= j < |items| ==> Complete(items[j])
    ensures Parse(text, decode).JsonList? ==> DecodesTo(text, decode, Parse(text, decode).items)
    ensures Parse(text, decode).RaisesTypeError? <==>
      exists items: seq<Item> :: DecodesTo(text, decode, items) &&
        exists j :: 0 <= j < |items| && items[j].Scalar? && CompleteBetween(items, 0, j)
    ensures Parse(text, decode).TextList? ==> Parse(text, decode).conditions == TextConditions(text)
  {
    match JsonSpan(text)
    case None =>
    case Some((b, e)) =>
      match decode(text[b..e])
      case Malformed =>
      case List(items) =>
        assert DecodesTo(text, decode, items);
        var _ := CheckFrom(items, 0);
  }

  /** The example "see [1]": a list holding a number makes `parse` raise. */
  lemma NumberItemRaises(decode: string -> Decoded)
    requires decode("[1]") == List([Scalar])
    ensures Parse("see [1]", decode) == RaisesTypeError
  {
    assert JsonSpan("see [1]") == Some((4, 7));
    assert "see [1]"[4..7] == "[1]";
  }

  /** A text without a '[' never reaches the decoder. */
  lemma NoBracketNoJson(text: string, d1: string -> Decoded, d2: string -> Decoded)
    requires forall k :: 0 <= k < |text| ==> text[k] != '['
    ensures Parse(text, d1) == Parse(text, d2) == TextList(TextConditions(text))
  {
    assert JsonSpan(text).None?;
  }
}

/** `merge_conditions` of packages/workflows/hcc_extractor/v0/agent/schemas/states.py,
    the reducer the agent state uses for its `conditions` list. The dictionary
    keyed by condition code is an insertion-ordered sequence of records with
    pairwise distinct codes. */
module States {
  import opened Wrappers
  import opened Lists
  import opened Records

  function Codes(entries: seq<ValidatedCondition>): (r: seq<string>)
    ensures |r| == |entries|
    ensures forall i :: 0 <= i < |entries| ==> r[i] == entries[i].code
  {
    seq(|entries|, i requires 0 <= i < |entries| => entries[i].code)
  }

  predicate UniqueCodes(entries: seq<ValidatedCondition>) {
    forall i, j :: 0 <= i < j < |entries| ==> entries[i].code != entries[j].code
  }

  function CodeTest(entries: seq<ValidatedCondition>, code: string): nat -> bool {
    (j: nat) => j < |entries| && entries[j].code == code
  }

  /** The place of `code` in the dictionary, if it is a key. */
  function IndexOf(entries: seq<ValidatedCondition>, code: string): (r: Option<nat>)
    ensures r.Some? ==> r.value < |entries| && entries[r.value].code == code
    ensures r.Some? ==> forall j :: 0 <= j < r.value ==> entries[j].code != code
    ensures r.None? ==> forall j :: 0 <= j < |entries| ==> entries[j].code != code
  {
    var p := CodeTest(entries, code);
    assert forall j: nat :: p(j) == (j < |entries| && entries[j].code == code);
    FirstWhere(p, 0, |entries|)
  }

  /** `d[c["condition_code"]] = c`: a known key keeps its place and takes the
      new record, a new key goes last. */
  function Put(entries: seq<ValidatedCondition>, c: ValidatedCondition): seq<ValidatedCondition> {
    match IndexOf(entries, c.code)
    case Some(i) => entries[i := c]
    case None => entries + [c]
  }

  /** `{c["condition_code"]: c for c in existing_conditions}`. */
  function BuildDict(xs: seq<ValidatedCondition>): seq<ValidatedCondition>
    decreases |xs|
  {
    if xs == [] then [] else Put(BuildDict(xs[..|xs| - 1]), xs[|xs| - 1])
  }

  /** Lines 56-60: the stored record takes the new name and data only where
      its own are empty and the new ones are not. */
  function Fill(stored: ValidatedCondition, c: ValidatedCondition): ValidatedCondition {
    var named := if c.name != "" && stored.name == "" then stored.(name := c.name) else stored;
    if c.data != "" && named.data == "" then named.(data := c.data) else named
  }

  /** One turn of the loop of lines 52-63. */
  function MergeOne(entries: seq<ValidatedCondition>, c: ValidatedCondition): seq<ValidatedCondition> {
    match IndexOf(entries, c.code)
    case Some(i) => entries[i := Fill(entries[i], c)]
    case None => entries + [c]
  }

  /** The loop of lines 52-63 over `xs`, from the dictionary `entries`. */
  function MergeAll(entries: seq<ValidatedCondition>, xs: seq<ValidatedCondition>): seq<ValidatedCondition>
    decreases |xs|
  {
    if xs == [] then entries else MergeAll(MergeOne(entries, xs[0]), xs[1..])
  }

  function Merged(existing: seq<ValidatedCondition>, newConditions: seq<ValidatedCondition>): seq<ValidatedCondition> {
    MergeAll(BuildDict(existing), newConditions)
  }

  method MergeConditions(existing: seq<ValidatedCondition>, newConditions: seq<ValidatedCondition>)
    returns (merged: seq<ValidatedCondition>)
    ensures merged == Merged(existing, newConditions)
  {
    var conditionsDict: seq<ValidatedCondition> := [];
    var i := 0;
    while i < |existing|
      invariant 0 <= i <= |existing|
      invariant conditionsDict == BuildDict(existing[..i])
    {
      var c := existing[i];
      match IndexOf(conditionsDict, c.code) {
        case Some(j) => conditionsDict := conditionsDict[j := c];
        case None => conditionsDict := conditionsDict + [c];
      }
      assert existing[..i + 1][..i] == existing[..i];
      i := i + 1;
    }
    assert existing[..|existing|] == existing;
    i := 0;
    while i < |newConditions|
      invariant 0 <= i <= |newConditions|
      invariant MergeAll(conditionsDict, newConditions[i..]) == Merged(existing, newConditions)
    {
      var condition := newConditions[i];
      var code := condition.code;
      assert newConditions[i..][1..] == newConditions[i + 1..];
      match IndexOf(conditionsDict, code) {
        case Some(j) =>
          var stored := conditionsDict[j];
          if condition.name != "" && stored.name == "" {
            stored := stored.(name := condition.name);
          }
          if condition.data != "" && stored.data == "" {
            stored := stored.(data := condition.data);
          }
          conditionsDict := conditionsDict[j := stored];
        case None =>
          conditionsDict := conditionsDict + [condition];
      }
      i := i + 1;
    }
    merged := conditionsDict;
  }

  // ---------------------------------------------------------------------------
  // Which codes, in which order
  // ---------------------------------------------------------------------------

  /** The codes of `s` by first appearance, each once. */
  function Dedup(s: seq<string>): seq<string>
    decreases |s|
  {
    if s == [] then []
    else
      var d := Dedup(s[..|s| - 1]);
      if s[|s| - 1] in s[..|s| - 1] then d else d + [s[|s| - 1]]
  }

  lemma {:induction false} DedupMembers(s: seq<string>)
    ensures forall x :: x in Dedup(s) <==> x in s
    ensures |Dedup(s)| <= |s|
    decreases |s|
  {
    if s != [] {
      DedupMembers(s[..|s| - 1]);
      assert s == s[..|s| - 1] + [s[|s| - 1]];
    }
  }

  lemma {:induction false} DedupUnique(s: seq<string>)
    ensures forall i, j :: 0 <= i < j < |Dedup(s)| ==> Dedup(s)[i] != Dedup(s)[j]
    decreases |s|
  {
    if s != [] {
      DedupUnique(s[..|s| - 1]);
      DedupMembers(s[..|s| - 1]);
    }
  }

  /** One entry stored: its code is kept where it is, or appended. */
  lemma PutCodes(entries: seq<ValidatedCondition>, c: ValidatedCondition)
    ensures Codes(Put(entries, c)) == if c.code in Codes(entries) then Codes(entries) else Codes(entries) + [c.code]
    ensures Codes(MergeOne(entries, c)) == Codes(Put(entries, c))
  {
    if c.code in Codes(entries) {
      var k :| 0 <= k < |entries| && Codes(entries)[k] == c.code;
      assert IndexOf(entries, c.code).Some?;
    }
  }

  lemma {:induction false} BuildDictCodes(xs: seq<ValidatedCondition>)
    ensures Codes(BuildDict(xs)) == Dedup(Codes(xs))
    decreases |xs|
  {
    if xs != [] {
      var init := xs[..|xs| - 1];
      BuildDictCodes(init);
      PutCodes(BuildDict(init), xs[|xs| - 1]);
      DedupMembers(Codes(init));
      assert Codes(xs)[..|xs| - 1] == Codes(init);
    }
  }

  /** The loop over `xs` appends the codes not yet seen, by first appearance. */
  function AppendNew(ks: seq<string>, xs: seq<string>): seq<string>
    decreases |xs|
  {
    if xs == [] then ks else AppendNew(if xs[0] in ks then ks else ks + [xs[0]], xs[1..])
  }

  lemma {:induction false} MergeAllCodes(entries: seq<ValidatedCondition>, xs: seq<ValidatedCondition>)
    ensures Codes(MergeAll(entries, xs)) == AppendNew(Codes(entries), Codes(xs))
    decreases |xs|
  {
    if xs != [] {
      PutCodes(entries, xs[0]);
      MergeAllCodes(MergeOne(entries, xs[0]), xs[1..]);
      assert Codes(xs)[1..] == Codes(xs[1..]);
    }
  }

  lemma {:induction false} DedupAppend(a: seq<string>, b: seq<string>)
    ensures Dedup(a + b) == AppendNew(Dedup(a), b)
    decreases |b|
  {
    if b == [] {
      assert a + b == a;
    } else {
      DedupSnoc(a, b[0]);
      DedupAppend(a + [b[0]], b[1..]);
      ShiftHead(a, b);
    }
  }

  /** One more code is kept exactly when it has not been seen. */
  lemma DedupSnoc(a: seq<string>, x: string)
    ensures Dedup(a + [x]) == if x in Dedup(a) then Dedup(a) else Dedup(a) + [x]
  {
    DedupMembers(a);
    assert (a + [x])[..|a|] == a;
  }

  /** The result's codes are those of `existing` and then those of
      `newConditions` not seen before, each by first appearance and each
      once: the union of the two code lists, with at most
      len(existing) + len(new) records. */
  lemma MergedCodes(existing: seq<ValidatedCondition>, newConditions: seq<ValidatedCondition>)
    ensures Codes(Merged(existing, newConditions)) == Dedup(Codes(existing) + Codes(newConditions))
    ensures UniqueCodes(Merged(existing, newConditions))
    ensures forall k :: k in Codes(Merged(existing, newConditions)) <==> k in Codes(existing) || k in Codes(newConditions)
    ensures |Merged(existing, newConditions)| <= |existing| + |newConditions|
  {
    BuildDictCodes(existing);
    MergeAllCodes(BuildDict(existing), newConditions);
    DedupAppend(Codes(existing), Codes(newConditions));
    var all := Codes(existing) + Codes(newConditions);
    DedupUnique(all);
    DedupMembers(all);
    var m := Merged(existing, newConditions);
    assert forall i :: 0 <= i < |m| ==> m[i].code == Dedup(all)[i];
  }

  // ---------------------------------------------------------------------------
  // Which record each code keeps
  // ---------------------------------------------------------------------------

  lemma PutUnique(entries: seq<ValidatedCondition>, c: ValidatedCondition)
    requires UniqueCodes(entries)
    ensures UniqueCodes(Put(entries, c)) && UniqueCodes(MergeOne(entries, c))
  {
  }

  /** Among records of `existing` with the same code, the last one is kept. */
  lemma {:induction false} LastDuplicateWins(xs: seq<ValidatedCondition>, i: nat)
    requires i < |xs| && forall j :: i < j < |xs| ==> xs[j].code != xs[i].code
    ensures UniqueCodes(BuildDict(xs))
    ensures IndexOf(BuildDict(xs), xs[i].code).Some?
    ensures BuildDict(xs)[IndexOf(BuildDict(xs), xs[i].code).value] == xs[i]
    decreases |xs|
  {
    var init := xs[..|xs| - 1];
    BuildDictUnique(init);
    PutUnique(BuildDict(init), xs[|xs| - 1]);
    if i < |xs| - 1 {
      LastDuplicateWins(init, i);
      var d := BuildDict(init);
      var p := IndexOf(d, xs[i].code).value;
      var d2 := Put(d, xs[|xs| - 1]);
      assert d2 == BuildDict(xs);
      assert p < |d2| && d2[p] == xs[i];
      assert IndexOf(d2, xs[i].code) == Some(p);
    } else {
      var d := BuildDict(init);
      var d2 := Put(d, xs[i]);
      assert d2 == BuildDict(xs);
      var p := if IndexOf(d, xs[i].code).Some? then IndexOf(d, xs[i].code).value else |d|;
      assert p < |d2| && d2[p] == xs[i];
      assert IndexOf(d2, xs[i].code) == Some(p);
    }
  }

  lemma {:induction false} BuildDictUnique(xs: seq<ValidatedCondition>)
    ensures UniqueCodes(BuildDict(xs))
    decreases |xs|
  {
    if xs != [] {
      BuildDictUnique(xs[..|xs| - 1]);
      PutUnique(BuildDict(xs[..|xs| - 1]), xs[|xs| - 1]);
    }
  }

  /** The first non-empty name among the records of `xs` with `code`, or "". */
  function FirstName(xs: seq<ValidatedCondition>, code: string): string
    decreases |xs|
  {
    if xs == [] then ""
    else if xs[0].code == code && xs[0].name != "" then xs[0].name
    else FirstName(xs[1..], code)
  }

  function FirstData(xs: seq<ValidatedCondition>, code: string): string
    decreases |xs|
  {
    if xs == [] then ""
    else if xs[0].code == code && xs[0].data != "" then xs[0].data
    else FirstData(xs[1..], code)
  }

  /** A stored record after the later records of `xs` have been merged into
      it: an empty name or data takes the first non-empty one offered for the
      same code; nothing else changes. */
  function FillFrom(r: ValidatedCondition, xs: seq<ValidatedCondition>): ValidatedCondition {
    r.(name := if r.name != "" then r.name else FirstName(xs, r.code),
       data := if r.data != "" then r.data else FirstData(xs, r.code))
  }

  lemma {:induction false} MergeAllKnown(entries: seq<ValidatedCondition>, xs: seq<ValidatedCondition>, p: nat)
    requires UniqueCodes(entries) && p < |entries|
    ensures |entries| <= |MergeAll(entries, xs)| && UniqueCodes(MergeAll(entries, xs))
    ensures MergeAll(entries, xs)[p] == FillFrom(entries[p], xs)
    decreases |xs|
  {
    if xs != [] {
      var next := MergeOne(entries, xs[0]);
      PutUnique(entries, xs[0]);
      MergeAllKnown(next, xs[1..], p);
      FillFromStep(entries, xs, p);
    }
  }

  /** Merging the first new record into the record at `p` and filling from the
      rest is filling from all of them. */
  lemma FillFromStep(entries: seq<ValidatedCondition>, xs: seq<ValidatedCondition>, p: nat)
    requires UniqueCodes(entries) && p < |entries| && xs != []
    ensures p < |MergeOne(entries, xs[0])|
    ensures FillFrom(MergeOne(entries, xs[0])[p], xs[1..]) == FillFrom(entries[p], xs)
  {
    if xs[0].code == entries[p].code {
      assert IndexOf(entries, xs[0].code) == Some(p);
    } else {
      assert MergeOne(entries, xs[0])[p] == entries[p];
    }
  }

  /** A code already in the dictionary keeps its record, its place, its code
      and its flag; only an empty name or data is filled in, from the first
      new record of that code that offers one. */
  lemma KnownCodeKept(existing: seq<ValidatedCondition>, newConditions: seq<ValidatedCondition>, p: nat)
    requires p < |BuildDict(existing)|
    ensures var stored := BuildDict(existing)[p]; var m := Merged(existing, newConditions);
      p < |m| && m[p].code == stored.code && m[p].isHcc == stored.isHcc &&
      m[p].name == (if stored.name != "" then stored.name else FirstName(newConditions, stored.code)) &&
      m[p].data == (if stored.data != "" then stored.data else FirstData(newConditions, stored.code))
  {
    BuildDictUnique(existing);
    MergeAllKnown(BuildDict(existing), newConditions, p);
  }

  /** A code first met in `newConditions` at `j` (and absent from the
      dictionary) enters with that record, filled from the later ones. */
  lemma {:induction false} NewCodeEnters(entries: seq<ValidatedCondition>, xs: seq<ValidatedCondition>, j: nat)
    requires UniqueCodes(entries) && j < |xs|
    requires forall q :: 0 <= q < |entries| ==> entries[q].code != xs[j].code
    requires forall l :: 0 <= l < j ==> xs[l].code != xs[j].code
    ensures IndexOf(MergeAll(entries, xs), xs[j].code).Some?
    ensures MergeAll(entries, xs)[IndexOf(MergeAll(entries, xs), xs[j].code).value] == FillFrom(xs[j], xs[j + 1..])
    decreases j
  {
    var next := MergeOne(entries, xs[0]);
    PutUnique(entries, xs[0]);
    if j == 0 {
      assert next == entries + [xs[0]];
      MergeAllKnown(next, xs[1..], |entries|);
      assert UniqueCodes(MergeAll(next, xs[1..]));
      assert IndexOf(MergeAll(entries, xs), xs[0].code) == Some(|entries|);
    } else {
      forall q | 0 <= q < |next| ensures next[q].code != xs[j].code {
        if q < |entries| {
          assert next[q].code == entries[q].code;
        } else {
          assert next[q] == xs[0];
        }
      }
      NewCodeEnters(next, xs[1..], j - 1);
      assert xs[1..][j - 1] == xs[j];
      assert xs[1..][j - 1 + 1..] == xs[j + 1..];
    }
  }
}

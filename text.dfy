/** The parts of Python's `str` that the pipeline relies on, with Python's
    semantics: `split(sep)`, `splitlines()`, `strip()`/`lstrip()`, `sep.join`,
    the substring test `sub in s`, `replace(c, "")`, `upper()` (ASCII only) and
    `str(n)` for natural numbers. */
module Text {
  import opened Wrappers

  // ---------------------------------------------------------------------------
  // Characters
  // ---------------------------------------------------------------------------

  /** Python's `str.isspace()`: the characters `strip()` removes and the regex
      class `\s` matches in a `str` pattern. */
  predicate IsSpace(c: char) {
    // The code points 0x09-0x0D, 0x1C-0x20, 0x85, 0xA0, 0x1680, 0x2000-0x200A,
    // 0x2028, 0x2029, 0x202F, 0x205F and 0x3000, tested as a decision tree.
    var n := c as int;
    if n <= 0x20 then 0x09 <= n <= 0x0D || 0x1C <= n
    else if n < 0x85 then false
    else if n <= 0xA0 then n == 0x85 || n == 0xA0
    else if n < 0x1680 then false
    else if n < 0x2000 then n == 0x1680
    else if n <= 0x200A then true
    else n == 0x2028 || n == 0x2029 || n == 0x202F || n == 0x205F || n == 0x3000
  }

  /** The characters at which `str.splitlines()` ends a line. */
  predicate IsLineBoundary(c: char) {
    // The code points 0x0A-0x0D, 0x1C-0x1E, 0x85, 0x2028 and 0x2029.
    var n := c as int;
    if n <= 0x1E then 0x0A <= n <= 0x0D || 0x1C <= n
    else if n < 0x85 then false
    else n == 0x85 || n == 0x2028 || n == 0x2029
  }

  predicate IsDigit(c: char) { '0' <= c <= '9' }
  predicate IsUpper(c: char) { 'A' <= c <= 'Z' }
  predicate IsLower(c: char) { 'a' <= c <= 'z' }
  predicate IsLetter(c: char) { IsUpper(c) || IsLower(c) }

  /** ASCII upper-casing of one character. */
  function ToUpper(c: char): char {
    if IsLower(c) then (c as int - 32) as char else c
  }

  /** `s.upper()`, restricted to ASCII letters. */
  function Upper(s: string): string {
    seq(|s|, i requires 0 <= i < |s| => ToUpper(s[i]))
  }

  /** ASCII lower-casing of one character. */
  function ToLower(c: char): char {
    if IsUpper(c) then (c as int + 32) as char else c
  }

  /** `s.lower()`, restricted to ASCII letters. */
  function Lower(s: string): string {
    seq(|s|, i requires 0 <= i < |s| => ToLower(s[i]))
  }

  /** True when every character of `s` is white space (Python: `not s.strip()`). */
  predicate IsBlank(s: string) {
    forall i :: 0 <= i < |s| ==> IsSpace(s[i])
  }

  predicate AllDigits(s: string) {
    forall i :: 0 <= i < |s| ==> IsDigit(s[i])
  }

  predicate NoLineBoundary(s: string) {
    forall i :: 0 <= i < |s| ==> !IsLineBoundary(s[i])
  }

  // ---------------------------------------------------------------------------
  // replace(c, "")
  // ---------------------------------------------------------------------------

  /** `s.replace(c, "")`: every occurrence of `c` removed, the rest kept in order. */
  function RemoveChar(s: string, c: char): (r: string)
    ensures c !in r
    ensures |r| <= |s|
    ensures c !in s ==> r == s
  {
    if s == [] then [] else (if s[0] == c then [] else [s[0]]) + RemoveChar(s[1..], c)
  }

  lemma RemoveCharAppend(a: string, b: string, c: char)
    ensures RemoveChar(a + b, c) == RemoveChar(a, c) + RemoveChar(b, c)
  {
    if a == [] {
      assert a + b == b;
    } else {
      assert (a + b)[1..] == a[1..] + b;
      RemoveCharAppend(a[1..], b, c);
    }
  }

  /** Removing `c` from a text that ends in its only `c`. */
  lemma DropLast(x: string, c: char)
    requires c !in x
    ensures RemoveChar(x + [c], c) == x
  {
    RemoveCharAppend(x, [c], c);
    assert RemoveChar([c], c) == [];
  }

  /** Removing `c` from a text whose only `c` stands between `a` and `b`. */
  lemma DropMiddle(a: string, b: string, c: char)
    requires c !in a && c !in b
    ensures RemoveChar(a + [c] + b, c) == a + b
  {
    var x := a + [c];
    RemoveCharAppend(x, b, c);
    DropLast(a, c);
  }

  // ---------------------------------------------------------------------------
  // strip() and lstrip()
  // ---------------------------------------------------------------------------

  /** `s.lstrip()`: the suffix of `s` that starts at its first non-space character. */
  function LStrip(s: string): string {
    s[SpacesEnd(s, 0)..]
  }

  /** `s.rstrip()`: the prefix of `s` that ends at its last non-space character. */
  function RStrip(s: string): string {
    s[..SpacesStart(s, |s|)]
  }

  /** `s.strip()`. */
  function Strip(s: string): string {
    RStrip(LStrip(s))
  }

  /** `strip()` gives the empty string exactly for blank input. */
  lemma StripEmptyIffBlank(s: string)
    ensures Strip(s) == [] <==> IsBlank(s)
  {
    if !IsBlank(s) {
      var i :| 0 <= i < |s| && !IsSpace(s[i]);
      KeptByStrip(s, i);
    }
  }

  /** A non-space character survives `strip()`. */
  lemma KeptByStrip(s: string, i: nat)
    requires i < |s| && !IsSpace(s[i])
    ensures Strip(s) != []
  {
    var k := SpacesEnd(s, 0);
    var l := LStrip(s);
    assert l[i - k] == s[i];
    assert SpacesStart(l, |l|) > i - k;
  }

  /** A stripped string has no white space at either end, and stripping it
      again changes nothing. */
  lemma StripProperties(s: string)
    ensures var r := Strip(s); r == [] || (!IsSpace(r[0]) && !IsSpace(r[|r| - 1]))
    ensures Strip(Strip(s)) == Strip(s)
  {
    var l := LStrip(s);
    var r := RStrip(l);
    if r != [] {
      assert r[0] == l[0];
      SpacesEndAt(r, 0, 0);
      SpacesStartAt(r, |r|, |r|);
    } else {
    }
    assert LStrip(r) == r;
    assert RStrip(r) == r;
  }

  /** A string that does not start with white space is its own `lstrip()`. */
  lemma LStripIdentity(s: string)
    requires s == [] || !IsSpace(s[0])
    ensures LStrip(s) == s
  {
  }

  /** `strip()` keeps a middle slice of its input. */
  lemma StripSlice(s: string)
    ensures exists i, j :: 0 <= i <= j <= |s| && Strip(s) == s[i..j]
  {
    var i := SpacesEnd(s, 0);
    var l := s[i..];
    var k := SpacesStart(l, |l|);
    assert Strip(s) == s[i..i + k];
  }

  // ---------------------------------------------------------------------------
  // split(sep) and sep.join(parts)
  // ---------------------------------------------------------------------------

  /** `s.split(sep)` for a one-character separator: never empty; `"".split(sep)`
      is `[""]`. */
  function Split(s: string, sep: char): (r: seq<string>)
    ensures |r| >= 1
  {
    if s == [] then [[]]
    else if s[0] == sep then [[]] + Split(s[1..], sep)
    else
      var rest := Split(s[1..], sep);
      [[s[0]] + rest[0]] + rest[1..]
  }

  /** `sep.join(parts)`. */
  function Join(parts: seq<string>, sep: string): string {
    if |parts| == 0 then []
    else if |parts| == 1 then parts[0]
    else parts[0] + sep + Join(parts[1..], sep)
  }

  lemma JoinCons(p: string, rest: seq<string>, sep: string)
    requires |rest| >= 1
    ensures Join([p] + rest, sep) == p + sep + Join(rest, sep)
  {
    assert ([p] + rest)[1..] == rest;
  }

  lemma JoinAppend(a: seq<string>, b: seq<string>, sep: string)
    requires |a| >= 1 && |b| >= 1
    ensures Join(a + b, sep) == Join(a, sep) + sep + Join(b, sep)
  {
    if |a| == 1 {
      JoinCons(a[0], b, sep);
      assert a + b == [a[0]] + b;
    } else {
      assert (a + b)[1..] == a[1..] + b;
      JoinAppend(a[1..], b, sep);
    }
  }

  /** Joining the pieces of a split with the same separator gives back the text. */
  lemma {:induction false} JoinSplit(s: string, sep: char)
    ensures Join(Split(s, sep), [sep]) == s
  {
    if s == [] {
    } else if s[0] == sep {
      JoinSplit(s[1..], sep);
      JoinCons([], Split(s[1..], sep), [sep]);
    } else {
      var rest := Split(s[1..], sep);
      JoinSplit(s[1..], sep);
      if |rest| == 1 {
      } else {
        assert ([[s[0]] + rest[0]] + rest[1..])[1..] == rest[1..];
        assert rest == [rest[0]] + rest[1..];
        JoinCons(rest[0], rest[1..], [sep]);
      }
    }
  }

  /** A split has two pieces or more exactly when the separator occurs. */
  lemma {:induction false} SplitCount(s: string, sep: char)
    ensures |Split(s, sep)| >= 2 <==> sep in s
  {
    if s != [] {
      SplitCount(s[1..], sep);
      assert s == [s[0]] + s[1..];
    }
  }

  /** No piece of a split contains the separator. */
  lemma {:induction false} SplitPiecesFree(s: string, sep: char)
    ensures forall k :: 0 <= k < |Split(s, sep)| ==> sep !in Split(s, sep)[k]
  {
    if s != [] {
      SplitPiecesFree(s[1..], sep);
    }
  }

  lemma {:induction false} SplitOfFree(a: string, sep: char)
    requires sep !in a
    ensures Split(a, sep) == [a]
  {
    if a != [] {
      assert sep !in a[1..];
      SplitOfFree(a[1..], sep);
      assert [a[0]] + a[1..] == a;
    }
  }

  lemma {:induction false} SplitPrefix(a: string, b: string, sep: char)
    requires sep !in a
    ensures Split(a + [sep] + b, sep) == [a] + Split(b, sep)
  {
    if a == [] {
      assert a + [sep] + b == [sep] + b;
      assert ([sep] + b)[1..] == b;
    } else {
      assert (a + [sep] + b)[1..] == a[1..] + [sep] + b;
      SplitPrefix(a[1..], b, sep);
      assert [a[0]] + a[1..] == a;
    }
  }

  /** Splitting a join of separator-free pieces gives back the pieces. */
  lemma {:induction false} SplitJoin(parts: seq<string>, sep: char)
    requires |parts| >= 1
    requires forall k :: 0 <= k < |parts| ==> sep !in parts[k]
    ensures Split(Join(parts, [sep]), sep) == parts
  {
    if |parts| == 1 {
      SplitOfFree(parts[0], sep);
    } else {
      SplitJoin(parts[1..], sep);
      SplitPrefix(parts[0], Join(parts[1..], [sep]), sep);
      assert parts == [parts[0]] + parts[1..];
    }
  }

  // ---------------------------------------------------------------------------
  // Substring search: `sub in s` and `s.find(sub, start)`
  // ---------------------------------------------------------------------------

  /** `sub` occurs in `s` at index `j`. */
  predicate IsAt(s: string, sub: string, j: int) {
    0 <= j && j + |sub| <= |s| && s[j..j + |sub|] == sub
  }

  /** A text cut around an occurrence of `o` at `j` and an end `e` that is
      the end of the text or an occurrence of `r`. */
  lemma CutAround(s: string, o: string, r: string, j: nat, e: nat)
    requires IsAt(s, o, j) && j + |o| <= e <= |s| && (e == |s| || IsAt(s, r, e))
    ensures s == s[..j] + o + s[j + |o|..e] + s[e..]
    ensures s[e..] == [] || (|s[e..]| >= |r| && s[e..][..|r|] == r)
  {
    assert s == s[..j] + s[j..j + |o|] + s[j + |o|..e] + s[e..];
    if e < |s| {
      assert s[e..][..|r|] == s[e..e + |r|];
    }
  }

  /** The first index at or after `from` where `sub` occurs, if any. */
  function FindFrom(s: string, sub: string, from: nat): (r: Option<nat>)
    ensures r.Some? ==> from <= r.value && IsAt(s, sub, r.value)
    ensures r.Some? ==> forall j :: from <= j < r.value ==> !IsAt(s, sub, j)
    ensures r.None? ==> forall j :: from <= j ==> !IsAt(s, sub, j)
    decreases |s| - from
  {
    if from + |sub| > |s| then None
    else if IsAt(s, sub, from) then Some(from)
    else FindFrom(s, sub, from + 1)
  }

  /** `sub` occurs somewhere in `s`. */
  ghost predicate Occurs(s: string, sub: string) {
    exists j :: IsAt(s, sub, j)
  }

  /** An occurrence inside an occurrence is an occurrence in the whole. */
  lemma OccursWithin(s: string, mid: string, sub: string)
    requires Occurs(s, mid) && Occurs(mid, sub)
    ensures Occurs(s, sub)
  {
    var j :| IsAt(s, mid, j);
    var i :| IsAt(mid, sub, i);
    assert forall t :: 0 <= t < |sub| ==> s[j + i + t] == mid[i + t] == sub[t];
    assert s[j + i..j + i + |sub|] == sub;
    assert IsAt(s, sub, j + i);
  }

  /** `strip()` returns a piece of its input. */
  lemma StripOccurs(s: string)
    ensures Occurs(s, Strip(s))
  {
    StripSlice(s);
    var i, j :| 0 <= i <= j <= |s| && Strip(s) == s[i..j];
    assert IsAt(s, Strip(s), i);
  }

  /** `sub` occurs in `s` at or after index `from`. */
  predicate ContainsFrom(s: string, sub: string, from: nat)
    decreases |s| - from
  {
    from + |sub| <= |s| && (s[from..from + |sub|] == sub || ContainsFrom(s, sub, from + 1))
  }

  /** Python's `sub in s`. */
  predicate Contains(s: string, sub: string) {
    ContainsFrom(s, sub, 0)
  }

  lemma {:induction false} ContainsFromIff(s: string, sub: string, from: nat)
    ensures ContainsFrom(s, sub, from) <==> exists j :: from <= j && IsAt(s, sub, j)
    decreases |s| - from
  {
    if from + |sub| <= |s| {
      ContainsFromIff(s, sub, from + 1);
      if ContainsFrom(s, sub, from) {
        if s[from..from + |sub|] == sub {
          assert IsAt(s, sub, from);
        } else {
          var j :| from + 1 <= j && IsAt(s, sub, j);
          assert from <= j;
        }
      }
      if exists j :: from <= j && IsAt(s, sub, j) {
        var j :| from <= j && IsAt(s, sub, j);
        if j > from {
          assert from + 1 <= j;
        }
      }
    }
  }

  /** `sub in s` holds exactly when `sub` occurs somewhere in `s`. */
  lemma ContainsIff(s: string, sub: string)
    ensures Contains(s, sub) <==> Occurs(s, sub)
  {
    ContainsFromIff(s, sub, 0);
  }

  // ---------------------------------------------------------------------------
  // splitlines()
  // ---------------------------------------------------------------------------

  /** The index of the first line boundary at or after `i`, or `|s|`. */
  function LineEnd(s: string, i: nat): (k: nat)
    requires i <= |s|
    ensures i <= k <= |s|
    ensures k < |s| ==> IsLineBoundary(s[k])
    ensures forall j :: i <= j < k ==> !IsLineBoundary(s[j])
    decreases |s| - i
  {
    if i == |s| || IsLineBoundary(s[i]) then i else LineEnd(s, i + 1)
  }

  /** The index of the first newline at or after `i`, or `|s|`. */
  function NewlineFrom(s: string, i: nat): (k: nat)
    requires i <= |s|
    ensures i <= k <= |s| && (k < |s| ==> s[k] == '\n')
    ensures forall j :: i <= j < k ==> s[j] != '\n'
    decreases |s| - i
  {
    if i == |s| || s[i] == '\n' then i else NewlineFrom(s, i + 1)
  }

  /** `s.splitlines()`: the lines of `s` without their line boundaries; "\r\n"
      counts as one boundary, and no empty line is produced after a final
      boundary (so `"".splitlines()` is `[]` and `"a\n".splitlines()` is `["a"]`). */
  function SplitLines(s: string): (r: seq<string>)
    ensures forall k :: 0 <= k < |r| ==> NoLineBoundary(r[k])
    decreases |s|
  {
    if s == [] then []
    else
      var k := LineEnd(s, 0);
      if k == |s| then [s]
      else
        var next := if s[k] == '\r' && k + 1 < |s| && s[k + 1] == '\n' then k + 2 else k + 1;
        [s[..k]] + SplitLines(s[next..])
  }

  /** `LineEnd` finds the boundary at `m` when there is none between `i` and `m`. */
  lemma LineEndAt(s: string, i: nat, m: nat)
    requires i <= m <= |s|
    requires forall j :: i <= j < m ==> !IsLineBoundary(s[j])
    requires m < |s| ==> IsLineBoundary(s[m])
    ensures LineEnd(s, i) == m
    decreases m - i
  {
    if i < m {
      LineEndAt(s, i + 1, m);
    }
  }

  lemma SplitLinesCons(a: string, b: string)
    requires NoLineBoundary(a)
    ensures SplitLines(a + "\n" + b) == [a] + SplitLines(b)
  {
    var s := a + "\n" + b;
    assert s[..|a|] == a;
    assert s[|a|] == '\n';
    forall j | 0 <= j < |a| ensures !IsLineBoundary(s[j]) {
      assert s[j] == a[j];
    }
    LineEndAt(s, 0, |a|);
    assert s[|a| + 1..] == b;
  }

  lemma SplitLinesOfFree(a: string)
    requires NoLineBoundary(a)
    requires a != []
    ensures SplitLines(a) == [a]
  {
    LineEndAt(a, 0, |a|);
  }

  /** The parts without their last one when that one is empty. */
  function DropEmptyLast(parts: seq<string>): (r: seq<string>)
    ensures parts != [] && parts[|parts| - 1] == [] ==> r == parts[..|parts| - 1]
    ensures parts == [] || parts[|parts| - 1] != [] ==> r == parts
  {
    if parts != [] && parts[|parts| - 1] == [] then parts[..|parts| - 1] else parts
  }

  /** `"\n".join(parts).splitlines()` gives back the parts, except that an
      empty last part is lost. */
  lemma {:induction false} SplitLinesJoin(parts: seq<string>)
    requires forall k :: 0 <= k < |parts| ==> NoLineBoundary(parts[k])
    ensures SplitLines(Join(parts, "\n")) ==
      if parts != [] && parts[|parts| - 1] == [] then parts[..|parts| - 1] else parts
  {
    if |parts| == 1 {
      if parts[0] != [] {
        SplitLinesOfFree(parts[0]);
      }
    } else if |parts| > 1 {
      var rest := parts[1..];
      SplitLinesJoin(rest);
      assert [parts[0]] + rest == parts;
      SplitLinesJoinCons(parts[0], rest);
      DropEmptyLastCons(parts[0], rest);
    }
  }

  /** The step of `SplitLinesJoin`: one more part in front. */
  lemma SplitLinesJoinCons(p: string, rest: seq<string>)
    requires NoLineBoundary(p) && rest != []
    ensures SplitLines(Join([p] + rest, "\n")) == [p] + SplitLines(Join(rest, "\n"))
  {
    JoinCons(p, rest, "\n");
    SplitLinesCons(p, Join(rest, "\n"));
  }

  lemma DropEmptyLastCons(p: string, rest: seq<string>)
    requires rest != []
    ensures DropEmptyLast([p] + rest) == [p] + DropEmptyLast(rest)
  {
    if rest[|rest| - 1] == [] {
      assert ([p] + rest)[..|rest|] == [p] + rest[..|rest| - 1];
    }
  }

  /** A slice holds no occurrence of `sub` that the text lacks in its range. */
  lemma SliceAbsent(s: string, sub: string, b: nat, e: nat)
    requires b <= e <= |s| && |sub| > 0
    requires forall k :: b <= k < e ==> !IsAt(s, sub, k)
    ensures forall k :: !IsAt(s[b..e], sub, k)
  {
    forall k | IsAt(s[b..e], sub, k) ensures false {
      var t := s[b..e];
      forall m | 0 <= m < |sub| ensures s[b + k..b + k + |sub|][m] == sub[m] {
        assert t[k..k + |sub|][m] == sub[m];
        assert t[k + m] == s[b + k + m];
      }
      assert s[b + k..b + k + |sub|] == sub;
      assert IsAt(s, sub, b + k);
    }
  }

  /** `strip()` adds no occurrence of a substring. */
  lemma StripAbsent(s: string, sub: string)
    requires |sub| > 0
    requires forall k :: !IsAt(s, sub, k)
    ensures forall k :: !IsAt(Strip(s), sub, k)
  {
    StripSlice(s);
    var i, j :| 0 <= i <= j <= |s| && Strip(s) == s[i..j];
    SliceAbsent(s, sub, i, j);
  }

  /** A string without line boundaries has no '\n'. */
  lemma NoNewline(s: string)
    requires NoLineBoundary(s)
    ensures '\n' !in s
  {
    if '\n' in s {
      var i :| 0 <= i < |s| && s[i] == '\n';
      assert IsLineBoundary(s[i]);
    }
  }

  // ---------------------------------------------------------------------------
  // Maximal runs (what a greedy `\d+`, `\s*` or `-*` consumes)
  // ---------------------------------------------------------------------------

  /** The end of the run of digits starting at `i`. */
  function DigitsEnd(s: string, i: nat): (k: nat)
    requires i <= |s|
    ensures i <= k <= |s|
    ensures forall j :: i <= j < k ==> IsDigit(s[j])
    ensures k < |s| ==> !IsDigit(s[k])
    decreases |s| - i
  {
    if i < |s| && IsDigit(s[i]) then DigitsEnd(s, i + 1) else i
  }

  /** `DigitsEnd` stops at `m` when the digits run exactly up to `m`. */
  lemma DigitsEndAt(s: string, i: nat, m: nat)
    requires i <= m <= |s|
    requires forall j :: i <= j < m ==> IsDigit(s[j])
    requires m < |s| ==> !IsDigit(s[m])
    ensures DigitsEnd(s, i) == m
    decreases m - i
  {
    if i < m {
      DigitsEndAt(s, i + 1, m);
    }
  }

  /** The end of the run of white space starting at `i`. */
  function SpacesEnd(s: string, i: nat): (k: nat)
    requires i <= |s|
    ensures i <= k <= |s|
    ensures forall j :: i <= j < k ==> IsSpace(s[j])
    ensures k < |s| ==> !IsSpace(s[k])
    decreases |s| - i
  {
    if i < |s| && IsSpace(s[i]) then SpacesEnd(s, i + 1) else i
  }

  lemma SpacesEndAt(s: string, i: nat, m: nat)
    requires i <= m <= |s|
    requires forall j :: i <= j < m ==> IsSpace(s[j])
    requires m < |s| ==> !IsSpace(s[m])
    ensures SpacesEnd(s, i) == m
    decreases m - i
  {
    if i < m {
      SpacesEndAt(s, i + 1, m);
    }
  }

  /** The start of the run of white space that ends just before `j`. */
  function SpacesStart(s: string, j: nat): (k: nat)
    requires j <= |s|
    ensures k <= j
    ensures forall i :: k <= i < j ==> IsSpace(s[i])
    ensures k > 0 ==> !IsSpace(s[k - 1])
  {
    if j > 0 && IsSpace(s[j - 1]) then SpacesStart(s, j - 1) else j
  }

  lemma SpacesStartAt(s: string, j: nat, m: nat)
    requires m <= j <= |s|
    requires forall i :: m <= i < j ==> IsSpace(s[i])
    requires m > 0 ==> !IsSpace(s[m - 1])
    ensures SpacesStart(s, j) == m
    decreases j - m
  {
    if m < j {
      SpacesStartAt(s, j - 1, m);
    }
  }

  /** The end of the run of copies of `c` starting at `i`. */
  function CharRunEnd(s: string, i: nat, c: char): (k: nat)
    requires i <= |s|
    ensures i <= k <= |s|
    ensures forall j :: i <= j < k ==> s[j] == c
    ensures k < |s| ==> s[k] != c
    decreases |s| - i
  {
    if i < |s| && s[i] == c then CharRunEnd(s, i + 1, c) else i
  }

  /** A character absent from a text is absent from every slice of it. */
  lemma SliceFree(s: string, c: char, i: nat, j: nat)
    requires i <= j <= |s| && c !in s
    ensures c !in s[i..j]
  {
  }

  /** A character absent from a text is absent from its stripped form. */
  lemma StripFree(s: string, c: char)
    requires c !in s
    ensures c !in Strip(s)
  {
    var i := SpacesEnd(s, 0);
    var l := s[i..];
    SliceFree(s, c, i, |s|);
    SliceFree(l, c, 0, SpacesStart(l, |l|));
  }

  // ---------------------------------------------------------------------------
  // str(n)
  // ---------------------------------------------------------------------------

  function DigitChar(d: nat): (c: char)
    requires d < 10
    ensures IsDigit(c)
  {
    ('0' as int + d) as char
  }

  /** `str(n)` for a natural number: its decimal digits, most significant first. */
  function NatToString(n: nat): (r: string)
    ensures |r| >= 1 && AllDigits(r)
  {
    if n < 10 then [DigitChar(n)] else NatToString(n / 10) + [DigitChar(n % 10)]
  }
}

/** ICD-10 code normalisation and the HCC lookup set
    (packages/workflows/hcc_extractor/v0/__init__.py). */
module Codes {
  import opened Text

  /** `normalize_code`: every '.' removed, then upper-cased. */
  function NormalizeCode(code: string): (r: string)
    ensures '.' !in r
    ensures |r| == |RemoveChar(code, '.')|
  {
    UpperKeepsDot(RemoveChar(code, '.'));
    Upper(RemoveChar(code, '.'))
  }

  /** Upper-casing neither creates nor removes a '.'. */
  lemma UpperKeepsDot(s: string)
    ensures '.' in Upper(s) <==> '.' in s
  {
    var u := Upper(s);
    if '.' in s {
      var i :| 0 <= i < |s| && s[i] == '.';
      assert u[i] == '.';
    }
    if '.' in u {
      var i :| 0 <= i < |u| && u[i] == '.';
      assert s[i] == '.';
    }
  }

  lemma UpperIdempotent(s: string)
    ensures Upper(Upper(s)) == Upper(s)
  {
  }

  lemma UpperAppend(a: string, b: string)
    ensures Upper(a + b) == Upper(a) + Upper(b)
  {
  }

  /** Removing dots and upper-casing commute. */
  lemma {:induction false} RemoveDotUpperCommute(s: string)
    ensures RemoveChar(Upper(s), '.') == Upper(RemoveChar(s, '.'))
  {
    if s != [] {
      var head, tail := [s[0]], s[1..];
      assert s == head + tail;
      RemoveDotUpperCommute(tail);
      UpperAppend(head, tail);
      RemoveCharAppend(Upper(head), Upper(tail), '.');
      RemoveCharAppend(head, tail, '.');
      UpperAppend(RemoveChar(head, '.'), RemoveChar(tail, '.'));
      HeadDotUpper(s[0]);
    }
  }

  /** The commuting square for one character. */
  lemma HeadDotUpper(c: char)
    ensures RemoveChar(Upper([c]), '.') == Upper(RemoveChar([c], '.'))
  {
    assert Upper([c]) == [ToUpper(c)];
    assert (ToUpper(c) == '.') == (c == '.');
  }

  /** `normalize_code` is idempotent. */
  lemma NormalizeIdempotent(code: string)
    ensures NormalizeCode(NormalizeCode(code)) == NormalizeCode(code)
  {
    var r := NormalizeCode(code);
    assert RemoveChar(r, '.') == r;
    UpperIdempotent(RemoveChar(code, '.'));
  }

  /** A code without dots normalises to its upper-case form. */
  lemma NormalizeDotFree(code: string)
    requires '.' !in code
    ensures NormalizeCode(code) == Upper(code)
  {
  }

  /** Two codes that agree after upper-casing agree after normalising. */
  lemma NormalizeViaUpper(a: string, b: string)
    requires Upper(a) == Upper(b)
    ensures NormalizeCode(a) == NormalizeCode(b)
  {
    RemoveDotUpperCommute(a);
    RemoveDotUpperCommute(b);
  }

  /** `normalize_code` maps "K21.9" and "k219" to "K219". */
  lemma NormalizeExample()
    ensures NormalizeCode("K21.9") == "K219"
    ensures NormalizeCode("k219") == "K219"
  {
    var u := "K219";
    assert Upper(u) == u && Upper("k219") == u;
    RemoveDotExample();
    NormalizeDotFree(u);
    NormalizeViaUpper("k219", u);
  }

  /** The dot removal inside the example above. */
  lemma RemoveDotExample()
    ensures RemoveChar("K21.9", '.') == "K219"
  {
    DropMiddle("K21", "9", '.');
    assert "K21" + ['.'] + "9" == "K21.9";
  }

  /** The lookup set built from the loaded codes: for every code `c`, both
      `normalize_code(c)` and `c.upper()` (v0/__init__.py lines 39-45, and the
      same loop in validation.py lines 161-167). */
  function LookupSet(codes: seq<string>): set<string> {
    (set c | c in codes :: NormalizeCode(c)) + (set c | c in codes :: Upper(c))
  }

  /** Builds the lookup set with the source's loop of `add` calls. */
  method BuildLookupSet(codes: seq<string>) returns (lookup: set<string>)
    ensures lookup == LookupSet(codes)
    ensures forall c :: c in codes ==> NormalizeCode(c) in lookup && Upper(c) in lookup
    ensures forall x :: x in lookup ==> exists c :: c in codes && (x == NormalizeCode(c) || x == Upper(c))
  {
    lookup := {};
    var i := 0;
    while i < |codes|
      invariant 0 <= i <= |codes|
      invariant lookup == LookupSet(codes[..i])
    {
      assert codes[..i + 1] == codes[..i] + [codes[i]];
      LookupSetSnoc(codes[..i], codes[i]);
      lookup := lookup + {NormalizeCode(codes[i])};
      lookup := lookup + {Upper(codes[i])};
      i := i + 1;
    }
    assert codes[..i] == codes;
    LookupSetMembers(codes);
  }

  /** One more loaded code adds its two forms. */
  lemma LookupSetSnoc(codes: seq<string>, c: string)
    ensures LookupSet(codes + [c]) == LookupSet(codes) + {NormalizeCode(c)} + {Upper(c)}
  {
    NormalizedSnoc(codes, c);
    UpperSnoc(codes, c);
  }

  lemma NormalizedSnoc(xs: seq<string>, x: string)
    ensures (set c | c in xs + [x] :: NormalizeCode(c)) == (set c | c in xs :: NormalizeCode(c)) + {NormalizeCode(x)}
  {
    assert forall t :: t in xs + [x] <==> t in xs || t == x;
  }

  lemma UpperSnoc(xs: seq<string>, x: string)
    ensures (set c | c in xs + [x] :: Upper(c)) == (set c | c in xs :: Upper(c)) + {Upper(x)}
  {
    assert forall t :: t in xs + [x] <==> t in xs || t == x;
  }

  /** The set holds the two forms of every loaded code and nothing else. */
  lemma LookupSetMembers(codes: seq<string>)
    ensures forall c :: c in codes ==> NormalizeCode(c) in LookupSet(codes) && Upper(c) in LookupSet(codes)
    ensures forall x :: x in LookupSet(codes) ==> exists c :: c in codes && (x == NormalizeCode(c) || x == Upper(c))
  {
  }

  /** `is_hcc`: the upper-cased code or its normalised form is in the set. */
  predicate IsHcc(code: string, lookup: set<string>) {
    Upper(code) in lookup || NormalizeCode(code) in lookup
  }

  /** The two-form test against the two-form set is exactly "the normalised code
      equals the normalised form of some loaded code". */
  lemma {:induction false} IsHccIffSameNormalForm(code: string, codes: seq<string>)
    ensures IsHcc(code, LookupSet(codes)) <==> exists t :: t in codes && NormalizeCode(t) == NormalizeCode(code)
  {
    var n := NormalizeCode(code);
    if IsHcc(code, LookupSet(codes)) {
      if Upper(code) in LookupSet(codes) {
        var t :| t in codes && (Upper(code) == NormalizeCode(t) || Upper(code) == Upper(t));
        if Upper(code) == NormalizeCode(t) {
          UpperKeepsDot(code);
          NormalizeDotFree(code);
        } else {
          NormalizeViaUpper(code, t);
        }
        assert NormalizeCode(t) == n;
      } else {
        var t :| t in codes && (n == NormalizeCode(t) || n == Upper(t));
        if n == Upper(t) {
          UpperKeepsDot(t);
          NormalizeDotFree(t);
        }
        assert NormalizeCode(t) == n;
      }
    }
    if exists t :: t in codes && NormalizeCode(t) == n {
      var t :| t in codes && NormalizeCode(t) == n;
      assert n in LookupSet(codes);
    }
  }

  /** With no loaded codes nothing is HCC-relevant. */
  lemma EmptyTableNoHcc(code: string)
    ensures !IsHcc(code, LookupSet([]))
  {
  }
}

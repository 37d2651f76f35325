/**
 * `normalize_sections` (vecrtor.py:22-28; app.py:34-40 is the same code):
 * cut any "read with" cross-reference, trim, upper-case, drop bare years and
 * case citations, and keep each token once.
 */
module SectionNorm {
  import opened Wrappers
  import opened Text
  import opened Sections
  import opened Patterns

  /** `.*$` can finish from `k`: no newline follows, except one that ends the string. */
  predicate RestOfLine(s: string, k: nat)
  {
    forall m :: k <= m < |s| - 1 ==> s[m] != '\n'
  }

  /** The leftmost start, from `i` on, where `read\s+with.*$` matches. */
  function CutStart(s: string, i: nat): (p: Option<nat>)
    requires i <= |s|
    ensures p.Some? ==> i <= p.value <= |s| && PhraseAt(s, p.value, "read", "with").Some?
    ensures p.Some? ==> RestOfLine(s, PhraseAt(s, p.value, "read", "with").value)
    ensures forall k :: i <= k < (if p.Some? then p.value else |s| + 1) ==>
              PhraseAt(s, k, "read", "with").None? || !RestOfLine(s, PhraseAt(s, k, "read", "with").value)
    decreases |s| - i
  {
    match PhraseAt(s, i, "read", "with")
    case Some(e) =>
      if RestOfLine(s, e) then Some(i) else if i == |s| then None else CutStart(s, i + 1)
    case None =>
      if i == |s| then None else CutStart(s, i + 1)
  }

  /**
   * `re.sub(r'read\s+with.*$', '', s, flags=re.IGNORECASE)`: the match runs to
   * the end of the string or to a final newline, which is kept.
   */
  function CutReadWith(s: string): string
  {
    match CutStart(s, 0)
    case None => s
    case Some(p) => s[..p] + (if s != [] && s[|s| - 1] == '\n' then "\n" else "")
  }

  /** `re.match(r'^\d{4}$', s)`; `$` also accepts one final newline. */
  predicate IsYear(s: string)
  {
    (|s| == 4 && AllDigits(s)) || (|s| == 5 && AllDigits(s[..4]) && s[4] == '\n')
  }

  /** Four digits, '/', upper-case letters A-Z, '/', digits. */
  predicate CitationBody(b: string)
  {
    && |b| >= 8
    && AllDigits(b[..4])
    && b[4] == '/'
    && exists k :: 5 < k < |b| - 1 && b[k] == '/' && IsAllUpperLetters(b[5..k]) && AllDigits(b[k + 1..])
  }

  predicate IsAllUpperLetters(s: string)
  {
    forall i :: 0 <= i < |s| ==> IsUpperLetter(s[i])
  }

  /** `re.match(r'^\d{4}/[A-Z]+/\d+$', s)`, case-sensitive; `$` also accepts one final newline. */
  predicate IsCitation(s: string)
  {
    CitationBody(s) || (s != [] && s[|s| - 1] == '\n' && CitationBody(s[..|s| - 1]))
  }

  /**
   * One token of `normalize_sections` as written (vecrtor.py:25-27, app.py:37-39):
   * the year and citation shapes are tested BEFORE upper-casing.
   */
  function NormalizeToken(sec: string): Option<string>
  {
    var t := Strip(CutReadWith(sec));
    if !IsCitation(t) && !IsYear(t) then Some(Upper(t)) else None
  }

  /** One token, corrected: the shapes are tested on the upper-cased token that is kept. */
  function CanonicalToken(sec: string): Option<string>
  {
    var t := Upper(Strip(CutReadWith(sec)));
    if !IsCitation(t) && !IsYear(t) then Some(t) else None
  }

  /** A whole `normalize_sections` pass with the per-token rule `f`: a set, as a list. */
  function NormalizedBy(secs: seq<string>, f: string -> Option<string>): seq<string>
  {
    Dedup(KeptBy(secs, f))
  }

  /**
   * What a corrected pass guarantees: no duplicates, no more tokens than it
   * was given, every token upper-case and neither a bare year nor a citation,
   * and exactly the tokens the corrected rule keeps.
   */
  lemma NormalizedFacts(secs: seq<string>)
    ensures NoDups(NormalizedBy(secs, CanonicalToken))
    ensures |NormalizedBy(secs, CanonicalToken)| <= |secs|
    ensures forall u :: u in NormalizedBy(secs, CanonicalToken) ==> IsUpperCase(u) && !IsYear(u) && !IsCitation(u)
    ensures forall u :: u in NormalizedBy(secs, CanonicalToken) <==> exists s :: s in secs && CanonicalToken(s) == Some(u)
  {
    var cleaned := NormalizedBy(secs, CanonicalToken);
    KeptByLength(secs, CanonicalToken);
    forall u | u in cleaned
      ensures IsUpperCase(u) && !IsYear(u) && !IsCitation(u)
    {
      KeptByMembership(secs, CanonicalToken, u);
      var s :| s in secs && CanonicalToken(s) == Some(u);
      UpperIsUpperCase(Strip(CutReadWith(s)));
    }
    forall u
      ensures u in cleaned <==> exists s :: s in secs && CanonicalToken(s) == Some(u)
    {
      KeptByMembership(secs, CanonicalToken, u);
    }
  }

  /**
   * The loop of `normalize_sections` with the per-token rule `f`: each
   * token the rule keeps is added to the set unless it is there already.
   */
  method NormalizeWith(secs: seq<string>, f: string -> Option<string>) returns (cleaned: seq<string>)
    ensures cleaned == NormalizedBy(secs, f)
  {
    cleaned := [];
    var i := 0;
    while i < |secs|
      invariant 0 <= i <= |secs|
      invariant cleaned == Dedup(KeptBy(secs[..i], f))
    {
      var token := f(secs[i]);
      DedupKeptSnoc(secs, f, i);
      if token.Some? && token.value !in cleaned {
        cleaned := cleaned + [token.value];
      }
      i := i + 1;
    }
    assert secs[..i] == secs;
  }

  /**
   * `normalize_sections` as written (vecrtor.py:22-28): the vector store
   * runs this one, so a lower-case citation can come out upper-cased.
   */
  method NormalizeSections(secs: seq<string>) returns (cleaned: seq<string>)
    ensures cleaned == NormalizedBy(secs, NormalizeToken)
    ensures NoDups(cleaned) && |cleaned| <= |secs|
    ensures forall u :: u in cleaned ==> IsUpperCase(u) && !IsYear(u)
  {
    cleaned := NormalizeWith(secs, NormalizeToken);
    NormalizedAsWrittenFacts(secs);
  }

  /** `normalize_sections` with the corrected token rule. */
  method NormalizeSectionsCorrected(secs: seq<string>) returns (cleaned: seq<string>)
    ensures cleaned == NormalizedBy(secs, CanonicalToken)
    ensures NoDups(cleaned) && |cleaned| <= |secs|
    ensures forall u :: u in cleaned ==> IsUpperCase(u) && !IsYear(u) && !IsCitation(u)
  {
    cleaned := NormalizeWith(secs, CanonicalToken);
    NormalizedFacts(secs);
  }

  /**
   * What the as-written pass guarantees: no duplicates, no more tokens than
   * it was given, every token upper-case and not a bare year, and exactly
   * the tokens the as-written rule keeps. (Not "no citation": see
   * `NormalizeTokenKeepsCitation`.)
   */
  lemma NormalizedAsWrittenFacts(secs: seq<string>)
    ensures NoDups(NormalizedBy(secs, NormalizeToken))
    ensures |NormalizedBy(secs, NormalizeToken)| <= |secs|
    ensures forall u :: u in NormalizedBy(secs, NormalizeToken) ==> IsUpperCase(u) && !IsYear(u)
    ensures forall u :: u in NormalizedBy(secs, NormalizeToken) <==> exists s :: s in secs && NormalizeToken(s) == Some(u)
  {
    var cleaned := NormalizedBy(secs, NormalizeToken);
    KeptByLength(secs, NormalizeToken);
    forall u | u in cleaned
      ensures IsUpperCase(u) && !IsYear(u)
    {
      KeptByMembership(secs, NormalizeToken, u);
      var s :| s in secs && NormalizeToken(s) == Some(u);
      NormalizeTokenNeverYear(s);
    }
    forall u
      ensures u in cleaned <==> exists s :: s in secs && NormalizeToken(s) == Some(u)
    {
      KeptByMembership(secs, NormalizeToken, u);
    }
  }

  // ---------------------------------------------------------------------
  // The as-written rule lets a lower-case citation through

  /** Without an 'r' of either case, `read\s+with` has nowhere to start. */
  lemma {:induction false} CutStartWithoutR(s: string, i: nat)
    requires i <= |s|
    requires forall k :: i <= k < |s| ==> s[k] != 'r' && s[k] != 'R'
    ensures CutStart(s, i) == None
    decreases |s| - i
  {
    if i + 4 <= |s| {
      assert Lower(s[i..i + 4])[0] == ToLowerChar(s[i]);
    }
    if i < |s| {
      CutStartWithoutR(s, i + 1);
    }
  }

  /** A citation has an upper-case letter just after the year and its slash. */
  lemma NotCitationBody(b: string)
    requires |b| > 5 && !IsUpperLetter(b[5])
    ensures !CitationBody(b)
  {
    forall k | 5 < k < |b| - 1
      ensures !IsAllUpperLetters(b[5..k])
    {
      assert b[5..k][0] == b[5];
    }
  }

  /** A trimmed token in which `read\s+with.*$` matches nowhere reaches the shape tests unchanged. */
  lemma PlainToken(s: string)
    requires s != [] && !IsSpace(s[0]) && !IsSpace(s[|s| - 1])
    requires CutStart(s, 0).None?
    ensures Strip(CutReadWith(s)) == s
  {
    StripOfTrimmed(s);
  }

  lemma UpperOfSample(s: string)
    requires s == "2015/abc/12"
    ensures Upper(s) == "2015/ABC/12"
  {
  }

  lemma SampleShapes(s: string, u: string)
    requires s == "2015/abc/12" && u == "2015/ABC/12"
    ensures !IsCitation(s) && !IsYear(s)
    ensures IsCitation(u) && IsUpperCase(u)
  {
    NotCitationBody(s);
    assert u[8] == '/' && IsAllUpperLetters(u[5..8]) && AllDigits(u[9..]);
  }

  /**
   * `normalize_sections` as written keeps "2015/abc/12" and returns it
   * upper-cased as "2015/ABC/12", a citation of exactly the shape the
   * function exists to remove; a second pass would then drop it.
   */
  lemma NormalizeTokenKeepsCitation(s: string, u: string)
    requires s == "2015/abc/12" && u == "2015/ABC/12"
    ensures NormalizeToken(s) == Some(u)
    ensures IsCitation(u)
    ensures NormalizeToken(u) == None
  {
    UpperOfSample(s);
    SampleShapes(s, u);
    SampleKept(s);
    SampleDroppedAsWritten(u);
  }

  lemma SampleKept(s: string)
    requires s == "2015/abc/12" && !IsCitation(s) && !IsYear(s)
    ensures NormalizeToken(s) == Some(Upper(s))
  {
    CutStartWithoutR(s, 0);
    PlainKept(s);
  }

  lemma SampleDroppedAsWritten(u: string)
    requires u == "2015/ABC/12" && IsCitation(u)
    ensures NormalizeToken(u) == None
  {
    CutStartWithoutR(u, 0);
    PlainDropped(u);
  }

  /** A trimmed token with nothing to cut that is neither a year nor a citation is kept, upper-cased, by the as-written rule. */
  lemma PlainKept(s: string)
    requires s != [] && !IsSpace(s[0]) && !IsSpace(s[|s| - 1])
    requires CutStart(s, 0).None?
    requires !IsCitation(s) && !IsYear(s)
    ensures NormalizeToken(s) == Some(Upper(s))
  {
    PlainToken(s);
  }

  /** A trimmed token with nothing to cut that is a citation is dropped by the as-written rule. */
  lemma PlainDropped(s: string)
    requires s != [] && !IsSpace(s[0]) && !IsSpace(s[|s| - 1])
    requires CutStart(s, 0).None?
    requires IsCitation(s)
    ensures NormalizeToken(s) == None
  {
    PlainToken(s);
  }

  /** Lifted to whole passes: applying the as-written pass twice differs from applying it once. */
  lemma NormalizeSectionsNotIdempotent(s: string, u: string)
    requires s == "2015/abc/12" && u == "2015/ABC/12"
    ensures NormalizedBy([s], NormalizeToken) == [u]
    ensures NormalizedBy(NormalizedBy([s], NormalizeToken), NormalizeToken) == []
  {
    NormalizeTokenKeepsCitation(s, u);
    assert KeptBy([s], NormalizeToken) == [u];
    assert Dedup([u]) == [u];
    assert KeptBy([u], NormalizeToken) == [];
  }

  /** The corrected rule drops the same token whatever its case. */
  lemma CanonicalTokenDropsCitation(s: string, u: string)
    requires s == "2015/abc/12" && u == "2015/ABC/12"
    ensures CanonicalToken(s) == None
    ensures CanonicalToken(u) == None
  {
    UpperOfSample(s);
    SampleShapes(s, u);
    UpperOfUpperCase(u);
    SampleDropped(s, u);
    SampleDropped(u, u);
  }

  lemma SampleDropped(x: string, u: string)
    requires x in {"2015/abc/12", "2015/ABC/12"} && u == "2015/ABC/12"
    requires Upper(x) == u && IsCitation(u)
    ensures CanonicalToken(x) == None
  {
    CutStartWithoutR(x, 0);
    PlainCanonicalDropped(x, u);
  }

  /** A trimmed token with nothing to cut whose upper-case form is a citation is dropped by the corrected rule. */
  lemma PlainCanonicalDropped(s: string, u: string)
    requires s != [] && !IsSpace(s[0]) && !IsSpace(s[|s| - 1])
    requires CutStart(s, 0).None?
    requires Upper(s) == u && IsCitation(u)
    ensures CanonicalToken(s) == None
  {
    PlainToken(s);
  }

  // ---------------------------------------------------------------------
  // Single-line tokens: no "read with" is left, and the corrected pass is idempotent

  /** Nowhere in `s` does `read\s+with` match. */
  predicate NoReadWith(s: string)
  {
    forall k :: 0 <= k <= |s| ==> PhraseAt(s, k, "read", "with").None?
  }

  lemma NoReadWithSlice(x: string, lo: nat, hi: nat)
    requires lo <= hi <= |x| && NoReadWith(x)
    ensures NoReadWith(x[lo..hi])
  {
    NoPhraseSlice(x, lo, hi, "read", "with");
  }

  lemma NoReadWithUpper(x: string)
    requires NoReadWith(x)
    ensures NoReadWith(Upper(x))
  {
    forall k | 0 <= k <= |x|
      ensures PhraseAt(Upper(x), k, "read", "with").None?
    {
      PhraseAtUpper(x, k, "read", "with");
    }
  }

  lemma {:induction false} CutStartOfNoReadWith(s: string, i: nat)
    requires i <= |s| && NoReadWith(s)
    ensures CutStart(s, i) == None
    decreases |s| - i
  {
    if i < |s| {
      CutStartOfNoReadWith(s, i + 1);
    }
  }

  lemma NoCutNoReadWith(s: string)
    requires '\n' !in s && CutStart(s, 0).None?
    ensures NoReadWith(s)
  {
    assert forall k :: 0 <= k <= |s| ==> RestOfLine(s, k);
  }

  lemma CutPrefixNoReadWith(s: string, p: nat)
    requires '\n' !in s && CutStart(s, 0) == Some(p)
    ensures NoReadWith(s[..p])
  {
    assert forall k :: 0 <= k <= |s| ==> RestOfLine(s, k);
    forall k | 0 <= k <= p
      ensures PhraseAt(s[..p], k, "read", "with").None?
    {
      PhraseAtSlice(s, 0, p, k, "read", "with");
    }
  }

  /** On a single line, cutting "read with" leaves no match behind. */
  lemma CutLeavesNoReadWith(s: string)
    requires '\n' !in s
    ensures NoReadWith(CutReadWith(s)) && '\n' !in CutReadWith(s)
  {
    match CutStart(s, 0)
    case None =>
      NoCutNoReadWith(s);
    case Some(p) =>
      CutPrefixNoReadWith(s, p);
      assert CutReadWith(s) == s[..p];
      assert forall c :: c in s[..p] ==> c in s;
  }

  lemma UpperKeepsNewlines(x: string)
    ensures '\n' in Upper(x) <==> '\n' in x
  {
    assert forall i :: 0 <= i < |x| ==> (Upper(x)[i] == '\n' <==> x[i] == '\n');
  }

  lemma StripKeepsNoReadWith(c: string)
    requires NoReadWith(c) && '\n' !in c
    ensures var t := Strip(c);
      NoReadWith(t) && '\n' !in t && (t == [] || (!IsSpace(t[0]) && !IsSpace(t[|t| - 1])))
  {
    StripOccurs(c);
    NoReadWithPiece(c, Strip(c), StripStart(c));
  }

  /** A piece of a single-line string free of "read with" is single-line and free of it too. */
  lemma NoReadWithPiece(c: string, t: string, k: nat)
    requires OccursAt(c, t, k) && NoReadWith(c) && '\n' !in c
    ensures NoReadWith(t) && '\n' !in t
  {
    NoReadWithSlice(c, k, k + |t|);
    NoNewlineSlice(c, k, k + |t|);
  }

  /** What the corrected rule keeps of a single-line token: trimmed, and free of "read with". */
  lemma TrimmedOfCut(sec: string)
    requires '\n' !in sec
    ensures var t := Strip(CutReadWith(sec));
      NoReadWith(t) && '\n' !in t && (t == [] || (!IsSpace(t[0]) && !IsSpace(t[|t| - 1])))
  {
    CutLeavesNoReadWith(sec);
    StripKeepsNoReadWith(CutReadWith(sec));
  }

  /** Upper-casing such a token gives a string the rule maps to itself. */
  lemma UpperOfTrimmedFixed(t: string)
    requires NoReadWith(t) && '\n' !in t && (t == [] || (!IsSpace(t[0]) && !IsSpace(t[|t| - 1])))
    ensures Upper(Strip(CutReadWith(Upper(t)))) == Upper(t)
    ensures NoReadWith(Upper(t)) && '\n' !in Upper(t)
  {
    var u := Upper(t);
    NoReadWithUpper(t);
    UpperKeepsNewlines(t);
    CutStartOfNoReadWith(u, 0);
    assert CutReadWith(u) == u;
    UpperPreservesSpaces(t);
    StripOfTrimmed(u);
    UpperIsUpperCase(t);
    UpperOfUpperCase(u);
  }

  /**
   * A single-line token that the corrected rule keeps carries no "read with"
   * cross-reference any more, and it is its own normal form.
   */
  lemma CanonicalTokenFixed(sec: string, u: string)
    requires '\n' !in sec && CanonicalToken(sec) == Some(u)
    ensures NoReadWith(u) && '\n' !in u
    ensures CanonicalToken(u) == Some(u)
  {
    TrimmedOfCut(sec);
    UpperOfTrimmedFixed(Strip(CutReadWith(sec)));
  }

  /** A single-line token that the as-written rule keeps carries no "read with" cross-reference any more. */
  lemma NormalizeTokenOneLine(sec: string, u: string)
    requires '\n' !in sec && NormalizeToken(sec) == Some(u)
    ensures NoReadWith(u) && '\n' !in u
  {
    var t := Strip(CutReadWith(sec));
    TrimmedOfCut(sec);
    NoReadWithUpper(t);
    UpperKeepsNewlines(t);
  }

  /** Lifted to the as-written pass: from single-line tokens, no output token contains "read with". */
  lemma NormalizedOneLine(secs: seq<string>)
    requires forall s :: s in secs ==> '\n' !in s
    ensures forall u :: u in NormalizedBy(secs, NormalizeToken) ==> NoReadWith(u) && '\n' !in u
  {
    forall u | u in NormalizedBy(secs, NormalizeToken)
      ensures NoReadWith(u) && '\n' !in u
    {
      KeptByMembership(secs, NormalizeToken, u);
      var s :| s in secs && NormalizeToken(s) == Some(u);
      NormalizeTokenOneLine(s, u);
    }
  }

  /** On single-line tokens the corrected pass is idempotent. */
  lemma NormalizedIdempotent(secs: seq<string>)
    requires forall s :: s in secs ==> '\n' !in s
    ensures NormalizedBy(NormalizedBy(secs, CanonicalToken), CanonicalToken) == NormalizedBy(secs, CanonicalToken)
  {
    var r := NormalizedBy(secs, CanonicalToken);
    forall u | u in r
      ensures CanonicalToken(u) == Some(u)
    {
      KeptByMembership(secs, CanonicalToken, u);
      var s :| s in secs && CanonicalToken(s) == Some(u);
      CanonicalTokenFixed(s, u);
    }
    KeptByFixed(r, CanonicalToken);
    DedupOfNoDups(r);
  }

  /** The as-written rule never keeps a bare year either: upper-casing leaves digits alone. */
  lemma NormalizeTokenNeverYear(sec: string)
    ensures NormalizeToken(sec).Some? ==> !IsYear(NormalizeToken(sec).value) && IsUpperCase(NormalizeToken(sec).value)
  {
    var t := Strip(CutReadWith(sec));
    UpperPreservesSpaces(t);
    UpperIsUpperCase(t);
    if |t| == 5 {
      assert Upper(t)[..4] == Upper(t[..4]);
      UpperPreservesSpaces(t[..4]);
    }
  }
}

/**
 * Statutory sections: the tokeniser that turns each captured "Section ..."
 * clause into tokens (ocr.py:130-141, the same rules at preprocess.py:68-78)
 * and the section normaliser `normalize_sections` (vecrtor.py:22-28, the
 * same code at app.py:34-40).
 */
module Sections {
  import opened Wrappers
  import opened Text
  import opened Patterns

  // ---------------------------------------------------------------------
  // Tokeniser

  /**
   * Where a match of the separator `,|\s+and\s+` that starts at `i` ends.
   * "and" is matched case-sensitively: the split pattern has no flags.
   */
  function SeparatorAt(s: string, i: nat): (e: Option<nat>)
    requires i < |s|
    ensures s[i] == ',' ==> e == Some(i + 1)
    ensures e.Some? ==> i < e.value <= |s|
  {
    if s[i] == ',' then Some(i + 1)
    else if IsSpace(s[i]) then
      var j := SpaceRunEnd(s, i);
      if j + 3 < |s| && s[j..j + 3] == "and" && IsSpace(s[j + 3]) then Some(SpaceRunEnd(s, j + 3))
      else None
    else None
  }

  /** The pieces of `re.split(r',|\s+and\s+', s)` from the piece that starts at `start`. */
  function SplitFrom(s: string, start: nat, i: nat): (parts: seq<string>)
    requires start <= i <= |s|
    requires ',' !in s[start..i]
    ensures |parts| >= 1
    ensures forall p :: p in parts ==> ',' !in p
    decreases |s| - i
  {
    if i == |s| then [s[start..]]
    else
      match SeparatorAt(s, i)
      case Some(e) => [s[start..i]] + SplitFrom(s, e, e)
      case None =>
        assert s[start..i + 1] == s[start..i] + [s[i]];
        SplitFrom(s, start, i + 1)
  }

  /** `re.split(r',|\s+and\s+', s)` */
  function SplitParts(s: string): (parts: seq<string>)
    ensures |parts| >= 1
    ensures forall p :: p in parts ==> ',' !in p
  {
    SplitFrom(s, 0, 0)
  }

  predicate AllSpace(t: string)
  {
    forall k :: 0 <= k < |t| ==> IsSpace(t[k])
  }

  /** Text that `\s+and\s+` matches whole: spaces, "and", spaces. */
  predicate IsAndSeparator(t: string)
  {
    exists j :: 0 < j < |t| - 3 && AllSpace(t[..j]) && t[j..j + 3] == "and" && AllSpace(t[j + 3..])
  }

  /** Text that `,|\s+and\s+` matches whole. */
  predicate IsSeparator(t: string)
  {
    t == "," || IsAndSeparator(t)
  }

  /** The separators `SplitFrom` cuts at, from index `i` on, in order. */
  function SeparatorsFrom(s: string, i: nat): seq<string>
    requires i <= |s|
    decreases |s| - i
  {
    if i == |s| then []
    else
      match SeparatorAt(s, i)
      case Some(e) => [s[i..e]] + SeparatorsFrom(s, e)
      case None => SeparatorsFrom(s, i + 1)
  }

  /** The parts with the separators put back between them. */
  function Weave(parts: seq<string>, seps: seq<string>): string
    requires |parts| == |seps| + 1
  {
    if seps == [] then parts[0] else parts[0] + seps[0] + Weave(parts[1..], seps[1..])
  }

  lemma WeaveCons(a: string, b: string, parts: seq<string>, seps: seq<string>)
    requires |parts| == |seps| + 1
    ensures Weave([a] + parts, [b] + seps) == a + b + Weave(parts, seps)
  {
    assert ([a] + parts)[1..] == parts && ([b] + seps)[1..] == seps;
  }

  /** What `SeparatorAt` finds is a whole separator match. */
  lemma SeparatorShape(s: string, i: nat)
    requires i < |s| && SeparatorAt(s, i).Some?
    ensures IsSeparator(s[i..SeparatorAt(s, i).value])
  {
    if s[i] != ',' {
      var j := SpaceRunEnd(s, i);
      var e := SpaceRunEnd(s, j + 3);
      var t := s[i..e];
      assert t[..j - i] == s[i..j];
      assert t[j - i..j - i + 3] == s[j..j + 3];
      assert t[j - i + 3..] == s[j + 3..e];
      assert 0 < j - i < |t| - 3;
    }
  }

  /** From `start`, the parts and the separators interleave back into the rest of `s`. */
  predicate RejoinsFrom(s: string, start: nat, i: nat)
    requires start <= i <= |s| && ',' !in s[start..i]
  {
    var parts := SplitFrom(s, start, i);
    var seps := SeparatorsFrom(s, i);
    && |seps| + 1 == |parts|
    && Weave(parts, seps) == s[start..]
    && forall t :: t in seps ==> IsSeparator(t)
  }

  lemma {:induction false} SplitFromRejoins(s: string, start: nat, i: nat)
    requires start <= i <= |s|
    requires ',' !in s[start..i]
    ensures RejoinsFrom(s, start, i)
    decreases |s| - i
  {
    if i < |s| {
      match SeparatorAt(s, i)
      case Some(e) =>
        SplitFromRejoins(s, e, e);
        SplitFromCut(s, start, i, e);
      case None =>
        assert s[start..i + 1] == s[start..i] + [s[i]];
        SplitFromRejoins(s, start, i + 1);
    }
  }

  /** A cut at a separator, given that what follows it rejoins. */
  lemma SplitFromCut(s: string, start: nat, i: nat, e: nat)
    requires start <= i < |s| && ',' !in s[start..i]
    requires SeparatorAt(s, i) == Some(e)
    requires RejoinsFrom(s, e, e)
    ensures RejoinsFrom(s, start, i)
  {
    SeparatorShape(s, i);
    WeaveCons(s[start..i], s[i..e], SplitFrom(s, e, e), SeparatorsFrom(s, e));
    assert s[start..] == s[start..i] + s[i..e] + s[e..];
  }

  /**
   * `re.split` cuts exactly at the separators: the parts, with the comma or
   * spaces-"and"-spaces each was cut at put back in between, give the clause
   * back.
   */
  lemma SplitRejoins(s: string)
    ensures |SeparatorsFrom(s, 0)| + 1 == |SplitParts(s)|
    ensures Weave(SplitParts(s), SeparatorsFrom(s, 0)) == s
    ensures forall t :: t in SeparatorsFrom(s, 0) ==> IsSeparator(t)
  {
    SplitFromRejoins(s, 0, 0);
  }

  /** A part that cross-refers with "r/w" or "read with" is kept whole. */
  predicate IsCompound(p: string)
  {
    ContainsCI(p, "r/w") || ContainsCI(p, "read with")
  }

  predicate StartsWithDigit(w: string)
  {
    w != [] && IsDigit(w[0])
  }

  /** The tokens one part contributes: itself when compound, else its digit-led words. */
  function PartTokens(part: string): seq<string>
  {
    var p := Strip(part);
    if p == [] then []
    else if IsCompound(p) then [p]
    else Filter(Words(p), StartsWithDigit)
  }

  /** The tokens of each part in turn, concatenated. */
  function TokensOfParts(parts: seq<string>): seq<string>
  {
    ConcatMap(parts, PartTokens)
  }

  /** `f` applied to each element in turn, the results concatenated. */
  function ConcatMap(xs: seq<string>, f: string -> seq<string>): seq<string>
  {
    if xs == [] then []
    else ConcatMap(xs[..|xs| - 1], f) + f(xs[|xs| - 1])
  }

  lemma ConcatMapSnoc(xs: seq<string>, f: string -> seq<string>, j: nat)
    requires j < |xs|
    ensures ConcatMap(xs[..j + 1], f) == ConcatMap(xs[..j], f) + f(xs[j])
  {
    assert xs[..j + 1][..j] == xs[..j];
  }

  lemma AllTokensSnoc(clauses: seq<string>, i: nat)
    requires i < |clauses|
    ensures AllTokens(clauses[..i + 1]) == AllTokens(clauses[..i]) + ClauseTokens(clauses[i])
  {
    assert clauses[..i + 1][..i] == clauses[..i];
  }

  /** The tokens of one captured clause (`match.group(1)`). */
  function ClauseTokens(clause: string): seq<string>
  {
    TokensOfParts(SplitParts(Strip(clause)))
  }

  /** The tokens of all captured clauses, in order, duplicates included. */
  function AllTokens(clauses: seq<string>): seq<string>
  {
    if clauses == [] then []
    else AllTokens(clauses[..|clauses| - 1]) + ClauseTokens(clauses[|clauses| - 1])
  }

  /**
   * The two kinds of section token: a whole stripped part that cross-refers
   * ("r/w", "read with"), or a whitespace-free word that starts with a digit.
   * Neither holds a comma.
   */
  predicate IsSectionToken(t: string)
  {
    && t != []
    && ',' !in t
    && ((IsCompound(t) && Strip(t) == t) || (IsDigit(t[0]) && NoSpace(t)))
  }

  lemma CompoundIsToken(p: string)
    requires p != [] && ',' !in p && IsCompound(p) && Strip(p) == p
    ensures IsSectionToken(p)
  {
  }

  lemma WordTokensAreTokens(p: string)
    requires ',' !in p
    ensures forall t :: t in Filter(Words(p), StartsWithDigit) ==> IsSectionToken(t)
  {
    var ws := Words(p);
    forall t | t in Filter(ws, StartsWithDigit)
      ensures IsSectionToken(t)
    {
      assert t in ws && StartsWithDigit(t);
      WordsLack(p, ',');
      WordsShape(p);
      assert ',' !in t && IsDigit(t[0]) && NoSpace(t);
    }
  }

  lemma PartTokensAreTokens(part: string)
    requires ',' !in part
    ensures forall t :: t in PartTokens(part) ==> IsSectionToken(t)
  {
    var p := Strip(part);
    StripLacks(part, ',');
    if p != [] {
      if IsCompound(p) {
        StripOfTrimmed(p);
        CompoundIsToken(p);
        assert PartTokens(part) == [p];
      } else {
        WordTokensAreTokens(p);
        assert PartTokens(part) == Filter(Words(p), StartsWithDigit);
      }
    }
  }

  lemma {:induction false} TokensOfPartsAreTokens(parts: seq<string>)
    requires forall p :: p in parts ==> ',' !in p
    ensures forall t :: t in TokensOfParts(parts) ==> IsSectionToken(t)
  {
    if parts != [] {
      var init := parts[..|parts| - 1];
      assert forall p :: p in init ==> p in parts;
      TokensOfPartsAreTokens(init);
      PartTokensAreTokens(parts[|parts| - 1]);
    }
  }

  /** Every token of every clause is a section token. */
  lemma {:induction false} AllTokensAreTokens(clauses: seq<string>)
    ensures forall t :: t in AllTokens(clauses) ==> IsSectionToken(t)
  {
    if clauses != [] {
      AllTokensAreTokens(clauses[..|clauses| - 1]);
      TokensOfPartsAreTokens(SplitParts(Strip(clauses[|clauses| - 1])));
    }
  }

  /**
   * The inner loop over the parts of one clause: the tokens `f` gives for
   * each part, appended in order.
   */
  method EachTokens(parts: seq<string>, f: string -> seq<string>) returns (toks: seq<string>)
    ensures toks == ConcatMap(parts, f)
  {
    toks := [];
    var j := 0;
    while j < |parts|
      invariant 0 <= j <= |parts|
      invariant toks == ConcatMap(parts[..j], f)
    {
      ConcatMapSnoc(parts, f, j);
      toks := toks + f(parts[j]);
      j := j + 1;
    }
    assert parts[..j] == parts;
  }

  /** The tokens of one captured clause, part by part. */
  method ClauseTokensOf(clause: string) returns (toks: seq<string>)
    ensures toks == ClauseTokens(clause)
  {
    var parts := SplitParts(Strip(clause));
    toks := EachTokens(parts, PartTokens);
  }

  /**
   * The sections loop of `parse_judgment_text` (ocr.py:130-141): every part
   * of every clause is appended whole or by its digit-led words, then
   * `list(set(...))` drops the duplicates. preprocess.py:68-78 runs the same
   * rules.
   */
  method CollectSections(clauses: seq<string>) returns (sections: seq<string>)
    ensures sections == Dedup(AllTokens(clauses))
    ensures NoDups(sections)
    ensures forall t :: t in sections ==> IsSectionToken(t)
  {
    var acc: seq<string> := [];
    var i := 0;
    while i < |clauses|
      invariant 0 <= i <= |clauses|
      invariant acc == AllTokens(clauses[..i])
    {
      var toks := ClauseTokensOf(clauses[i]);
      acc := acc + toks;
      AllTokensSnoc(clauses, i);
      i := i + 1;
    }
    assert clauses[..i] == clauses;
    sections := Dedup(acc);
    CollectedAreTokens(clauses);
  }

  /**
   * The collected sections hold no duplicates and only section tokens, and
   * they are exactly the tokens of the clauses: none is lost.
   */
  lemma CollectedAreTokens(clauses: seq<string>)
    ensures NoDups(Dedup(AllTokens(clauses)))
    ensures forall t :: t in Dedup(AllTokens(clauses)) <==> t in AllTokens(clauses)
    ensures forall t :: t in Dedup(AllTokens(clauses)) ==> IsSectionToken(t)
  {
    AllTokensAreTokens(clauses);
  }
}

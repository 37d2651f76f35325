/**
 * Party names: the line filter `parse_judgment_text` applies to a captured
 * petitioner or respondent block (ocr.py:113-125), and `clean_names`
 * (preprocess.py:51-60), which keeps a name-like run from each marker-free
 * cleaned entry.
 */
module Parties {
  import opened Wrappers
  import opened Text
  import opened Patterns
  import opened Normalizer

  // ---------------------------------------------------------------------
  // Party lines of a captured block

  /** `re.match(r'BY ADV|SRI\.|SMT\.', t, re.IGNORECASE)`: an advocate's line. */
  predicate IsCounselLine(t: string)
  {
    StartsWith(Lower(t), "by adv") || StartsWith(Lower(t), "sri.") || StartsWith(Lower(t), "smt.")
  }

  /** A line survives when, stripped, it is non-empty and not an advocate's line. */
  predicate KeepsLine(line: string)
  {
    Strip(line) != [] && !IsCounselLine(Strip(line))
  }

  /** `[line.strip() for line in lines if line.strip() and not ...]` */
  function KeptLines(lines: seq<string>): seq<string>
  {
    if lines == [] then []
    else (if KeepsLine(lines[0]) then [Strip(lines[0])] else []) + KeptLines(lines[1..])
  }

  /**
   * The party list of one captured block: its surviving lines, or, when none
   * survives, the whole stripped block as the only entry.
   */
  function PartyLines(block: string): seq<string>
  {
    var text := Strip(block);
    var kept := KeptLines(Split(text, '\n'));
    if kept != [] then kept else [text]
  }

  /** A line is kept exactly when some input line, stripped, is it and survives the filter. */
  lemma {:induction false} KeptLinesMembership(lines: seq<string>, x: string)
    ensures x in KeptLines(lines) <==> exists l :: l in lines && KeepsLine(l) && Strip(l) == x
  {
    if lines != [] {
      KeptLinesMembership(lines[1..], x);
      if exists l :: l in lines && KeepsLine(l) && Strip(l) == x {
        var l :| l in lines && KeepsLine(l) && Strip(l) == x;
        if l != lines[0] {
          assert l in lines[1..];
        }
      }
    }
  }

  /** Kept lines are stripped, non-empty and no advocate's line. */
  lemma {:induction false} KeptLinesShape(lines: seq<string>)
    ensures forall x :: x in KeptLines(lines) ==> x != [] && Strip(x) == x && !IsCounselLine(x)
  {
    if lines != [] {
      KeptLinesShape(lines[1..]);
      StripOfTrimmed(Strip(lines[0]));
    }
  }

  lemma {:induction false} KeptLinesEmpty(lines: seq<string>)
    ensures KeptLines(lines) == [] <==> forall l :: l in lines ==> !KeepsLine(l)
  {
    if lines != [] {
      KeptLinesEmpty(lines[1..]);
      assert forall l :: l in lines[1..] ==> l in lines;
    }
  }

  /** The surviving lines of a block, or the whole block when none survives. */
  lemma PartyLinesChoice(block: string)
    ensures var lines := Split(Strip(block), '\n');
      PartyLines(block) == if exists l :: l in lines && KeepsLine(l) then KeptLines(lines) else [Strip(block)]
  {
    KeptLinesEmpty(Split(Strip(block), '\n'));
  }

  /**
   * The list is never empty. Either every entry is a stripped, non-empty,
   * non-advocate line of the block, and every such line is an entry; or no
   * line survives and the list is the whole stripped block, advocate
   * markers and all.
   */
  lemma PartyLinesSpec(block: string)
    ensures |PartyLines(block)| >= 1
    ensures var lines := Split(Strip(block), '\n');
      if exists l :: l in lines && KeepsLine(l) then
        && (forall x :: x in PartyLines(block) ==> x != [] && Strip(x) == x && !IsCounselLine(x))
        && (forall x :: x in PartyLines(block) <==> exists l :: l in lines && KeepsLine(l) && Strip(l) == x)
      else
        PartyLines(block) == [Strip(block)]
  {
    var lines := Split(Strip(block), '\n');
    PartyLinesChoice(block);
    KeptLinesEmpty(lines);
    KeptLinesShape(lines);
    forall x
      ensures x in KeptLines(lines) <==> exists l :: l in lines && KeepsLine(l) && Strip(l) == x
    {
      KeptLinesMembership(lines, x);
    }
  }

  // ---------------------------------------------------------------------
  // clean_names

  /**
   * `re.search(r'BY\s+ADV|SRI\.|SMT\.|PIN|PUBLIC\s+PROSECUTOR|COURT|ACCUSED|COMPLAINANT|STATE',
   * n, re.IGNORECASE)`: the entry names counsel, the prosecution, a court or
   * the state rather than a party.
   */
  predicate HasMarker(n: string)
  {
    || ContainsPhrase(n, "by", "adv")
    || ContainsCI(n, "sri.")
    || ContainsCI(n, "smt.")
    || ContainsCI(n, "pin")
    || ContainsPhrase(n, "public", "prosecutor")
    || ContainsCI(n, "court")
    || ContainsCI(n, "accused")
    || ContainsCI(n, "complainant")
    || ContainsCI(n, "state")
  }

  /** `[A-Za-z\s.-]` */
  predicate IsNameChar(c: char)
  {
    IsLetter(c) || IsSpace(c) || c == '.' || c == '-'
  }

  /** End of the run of name characters that starts at `i`. */
  function NameRunEnd(s: string, i: nat): (j: nat)
    requires i <= |s|
    ensures i <= j <= |s|
    ensures forall k :: i <= k < j ==> IsNameChar(s[k])
    ensures j < |s| ==> !IsNameChar(s[j])
    decreases |s| - i
  {
    if i < |s| && IsNameChar(s[i]) then NameRunEnd(s, i + 1) else i
  }

  /** The leftmost `k >= i` where `[A-Z][A-Za-z\s.-]+` (any case) can start: a letter, then a name character. */
  function NameStart(s: string, i: nat): (k: Option<nat>)
    requires i <= |s|
    ensures k.Some? ==> i <= k.value && k.value + 1 < |s| && IsLetter(s[k.value]) && IsNameChar(s[k.value + 1])
    decreases |s| - i
  {
    if i + 1 >= |s| then None
    else if IsLetter(s[i]) && IsNameChar(s[i + 1]) then Some(i)
    else NameStart(s, i + 1)
  }

  /**
   * Group 1 of `re.search(r'([A-Z][A-Za-z\s.-]+)(?:,\s*AGED\s*\d+)?', n, re.IGNORECASE)`:
   * the greedy run of name characters from the leftmost start. The optional
   * age suffix never changes the group.
   */
  function NameMatch(n: string): Option<string>
  {
    match NameStart(n, 0)
    case None => None
    case Some(k) => Some(n[k..NameRunEnd(n, k + 1)])
  }

  /** What `clean_names` keeps of an already cleaned entry. */
  function NameOfClean(n: string): Option<string>
  {
    if HasMarker(n) then None
    else
      match NameMatch(n)
      case None => None
      case Some(m) => Some(Strip(m))
  }

  /** What `clean_names` keeps of one raw entry. */
  function NameOf(raw: string): Option<string>
  {
    NameOfClean(CleanText(raw))
  }

  /** One pass of the loop of `clean_names`: the name kept of one raw entry, if any. */
  method CleanName(raw: string) returns (kept: Option<string>)
    ensures kept == NameOf(raw)
  {
    var name := CleanText(raw);
    if HasMarker(name) {
      return None;
    }
    match NameMatch(name) {
      case Some(m) => kept := Some(Strip(m));
      case None => kept := None;
    }
  }

  /** `clean_names(name_list)`: the loop over the entries, then `list(set(...))`. */
  method CleanNames(names: seq<string>) returns (cleaned: seq<string>)
    ensures cleaned == Dedup(KeptBy(names, NameOf))
    ensures NoDups(cleaned) && |cleaned| <= |names|
    ensures forall x :: x in cleaned <==> exists raw :: raw in names && NameOf(raw) == Some(x)
  {
    var acc: seq<string> := [];
    var i := 0;
    while i < |names|
      invariant 0 <= i <= |names|
      invariant acc == KeptBy(names[..i], NameOf)
    {
      var kept := CleanName(names[i]);
      KeptBySnoc(names, NameOf, i);
      match kept {
        case Some(n) => acc := acc + [n];
        case None =>
      }
      i := i + 1;
    }
    assert names[..i] == names;
    cleaned := Dedup(acc);
    KeptByLength(names, NameOf);
    forall x
      ensures x in cleaned <==> exists raw :: raw in names && NameOf(raw) == Some(x)
    {
      KeptByMembership(names, NameOf, x);
    }
  }

  // ---------------------------------------------------------------------
  // What a kept name is

  /** A string that starts with a non-space keeps its first character when stripped. */
  lemma StripKeepsHead(m: string)
    requires m != [] && !IsSpace(m[0])
    ensures StripStart(m) == 0 && Strip(m) != [] && Strip(m)[0] == m[0]
  {
    assert LStrip(m) == m;
  }

  lemma ContainsCIOfSlice(x: string, lo: nat, hi: nat, t: string)
    requires lo <= hi <= |x| && !ContainsCI(x, t)
    ensures !ContainsCI(x[lo..hi], t)
  {
    if ContainsCI(x[lo..hi], t) {
      ContainsCISlice(x, lo, hi, t);
    }
  }

  lemma NoPhraseOfSlice(x: string, lo: nat, hi: nat, a: string, b: string)
    requires lo <= hi <= |x| && b != [] && !IsSpace(b[0])
    requires !ContainsPhrase(x, a, b)
    ensures !ContainsPhrase(x[lo..hi], a, b)
  {
    NoPhraseSlice(x, lo, hi, a, b);
  }

  /** A slice of a marker-free entry is marker-free. */
  lemma NoMarkerSlice(x: string, lo: nat, hi: nat)
    requires lo <= hi <= |x| && !HasMarker(x)
    ensures !HasMarker(x[lo..hi])
  {
    NoPhraseOfSlice(x, lo, hi, "by", "adv");
    NoPhraseOfSlice(x, lo, hi, "public", "prosecutor");
    ContainsCIOfSlice(x, lo, hi, "sri.");
    ContainsCIOfSlice(x, lo, hi, "smt.");
    ContainsCIOfSlice(x, lo, hi, "pin");
    ContainsCIOfSlice(x, lo, hi, "court");
    ContainsCIOfSlice(x, lo, hi, "accused");
    ContainsCIOfSlice(x, lo, hi, "complainant");
    ContainsCIOfSlice(x, lo, hi, "state");
  }

  /**
   * The trimmed run of name characters that starts with a letter inside an
   * entry is non-empty, starts with that letter, is trimmed and sits in the
   * entry.
   */
  lemma TrimmedRun(n: string, k: nat, e: nat)
    requires k < e <= |n| && IsLetter(n[k])
    requires forall i :: k <= i < e ==> IsNameChar(n[i])
    ensures var x := Strip(n[k..e]);
      && x != [] && IsLetter(x[0])
      && Contains(n, x)
      && (forall i :: 0 <= i < |x| ==> IsNameChar(x[i]))
      && Strip(x) == x
  {
    var j := TrimmedSlice(n, k, e);
    NameCharsSlice(n, k, j, e);
    assert OccursAt(n, n[k..j], k);
  }

  lemma NameCharsSlice(n: string, k: nat, j: nat, e: nat)
    requires k < j <= e <= |n|
    requires forall i :: k <= i < e ==> IsNameChar(n[i])
    ensures n[k..j][0] == n[k]
    ensures forall i :: 0 <= i < j - k ==> IsNameChar(n[k..j][i])
  {
    forall i | 0 <= i < j - k
      ensures IsNameChar(n[k..j][i])
    {
      assert n[k..j][i] == n[k + i];
    }
  }

  /** ... and carries no marker when the entry carries none. */
  lemma TrimmedRunNoMarker(n: string, k: nat, e: nat)
    requires k < e <= |n| && !IsSpace(n[k]) && !HasMarker(n)
    ensures !HasMarker(Strip(n[k..e]))
  {
    var j := TrimmedSlice(n, k, e);
    NoMarkerSlice(n, k, j);
  }

  /**
   * Stripping a slice that starts with a non-space leaves a non-empty,
   * trimmed prefix of it, ending at `j`.
   */
  lemma TrimmedSlice(n: string, k: nat, e: nat) returns (j: nat)
    requires k < e <= |n| && !IsSpace(n[k])
    ensures k < j <= e && Strip(n[k..e]) == n[k..j] && Strip(n[k..j]) == n[k..j]
  {
    var m := n[k..e];
    StripOfHeaded(m);
    OccursInSlice(n, k, e, Strip(m), 0);
    j := k + |Strip(m)|;
  }

  /** Stripping a string that starts with a non-space keeps a non-empty, trimmed prefix. */
  lemma StripOfHeaded(m: string)
    requires m != [] && !IsSpace(m[0])
    ensures Strip(m) != [] && OccursAt(m, Strip(m), 0) && Strip(Strip(m)) == Strip(m)
  {
    StripKeepsHead(m);
    StripOccurs(m);
    StripOfTrimmed(Strip(m));
  }

  /**
   * A name kept from a cleaned entry sits inside that entry, starts with a
   * letter, is made of name characters only, is trimmed, and carries none
   * of the markers.
   */
  lemma NameOfCleanSpec(n: string)
    ensures NameOfClean(n).Some? ==> IsPartyName(n, NameOfClean(n).value)
  {
    if !HasMarker(n) && NameStart(n, 0).Some? {
      var k := NameStart(n, 0).value;
      PartyNameOfRun(n, k);
    }
  }

  /** The run of name characters from a letter, trimmed, is a party name of a marker-free entry. */
  lemma PartyNameOfRun(n: string, k: nat)
    requires k < |n| && IsLetter(n[k]) && !HasMarker(n)
    ensures IsPartyName(n, Strip(n[k..NameRunEnd(n, k + 1)]))
  {
    var e := NameRunEnd(n, k + 1);
    TrimmedRun(n, k, e);
    TrimmedRunNoMarker(n, k, e);
  }

  /** `x` is a trimmed, marker-free run of name characters inside `n` that starts with a letter. */
  predicate IsPartyName(n: string, x: string)
  {
    && x != [] && IsLetter(x[0])
    && Contains(n, x)
    && (forall i :: 0 <= i < |x| ==> IsNameChar(x[i]))
    && Strip(x) == x
    && !HasMarker(x)
  }

  /**
   * Every name `clean_names` returns is such a name inside the cleaned text
   * of some input entry, and that entry carried no marker.
   */
  lemma CleanNamesSpec(names: seq<string>)
    ensures forall x :: x in Dedup(KeptBy(names, NameOf)) ==>
      exists raw :: raw in names && !HasMarker(CleanText(raw)) && IsPartyName(CleanText(raw), x)
  {
    forall x | x in Dedup(KeptBy(names, NameOf))
      ensures exists raw :: raw in names && !HasMarker(CleanText(raw)) && IsPartyName(CleanText(raw), x)
    {
      KeptByMembership(names, NameOf, x);
      var raw :| raw in names && NameOf(raw) == Some(x);
      NameOfCleanSpec(CleanText(raw));
    }
  }
}

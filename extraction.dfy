/**
 * `parse_judgment_text` (ocr.py:81-180): the record built from the text of
 * one judgment. The large patterns (case number, court, date, judge, the
 * party blocks, the section clauses, the outcome clause and its fallback)
 * are not matched here; what they found arrives as `Matches`. The named
 * entities that spaCy finds arrive as a list of `Entity`.
 */
module Extraction {
  import opened Wrappers
  import opened Text
  import opened Sections
  import opened Parties

  /** One named entity: its kind, spaCy's label ("ORG", "DATE", "PERSON", ...) and its text. */
  datatype Entity = Entity(kind: string, text: string)

  /** The `data` dictionary of one judgment. */
  datatype CaseRecord = CaseRecord(
    caseId: string,
    court: string,
    date: string,
    judge: string,
    petitioners: seq<string>,
    respondents: seq<string>,
    sections: seq<string>,
    outcome: string,
    fullText: string)

  /**
   * What the patterns found in the text: a captured group, the start of the
   * outcome clause, or nothing. `sectionClauses` holds group 1 of every
   * match of the sections pattern, in order.
   */
  datatype Matches = Matches(
    caseId: Option<string>,
    court: Option<string>,
    date: Option<string>,
    judge: Option<string>,
    petitionerBlock: Option<string>,
    respondentBlock: Option<string>,
    sectionClauses: seq<string>,
    outcomeStart: Option<nat>,
    fallbackOutcome: Option<string>)

  /** `m.group(1).strip() if m else ""` */
  function GroupOrEmpty(g: Option<string>): string
  {
    match g
    case None => ""
    case Some(x) => Strip(x)
  }

  /** A party field: the block's party lines, or no one when the block was not found. */
  function PartyField(g: Option<string>): seq<string>
  {
    match g
    case None => []
    case Some(b) => PartyLines(b)
  }

  // ---------------------------------------------------------------------
  // Outcome

  /** How many characters after the start of the outcome clause are kept. */
  const OutcomeWindow: nat := 200

  /** `text[s:min(s + 200, len(text))].strip()` */
  function PrimaryOutcome(text: string, s: nat): string
    requires s <= |text|
  {
    Strip(text[s..if s + OutcomeWindow < |text| then s + OutcomeWindow else |text|])
  }

  /** The primary outcome is a piece of the text inside the 200-character window. */
  lemma PrimaryOutcomeSpec(text: string, s: nat)
    requires s <= |text|
    ensures |PrimaryOutcome(text, s)| <= OutcomeWindow
    ensures exists k :: s <= k && k + |PrimaryOutcome(text, s)| <= s + OutcomeWindow && OccursAt(text, PrimaryOutcome(text, s), k)
  {
    var e := if s + OutcomeWindow < |text| then s + OutcomeWindow else |text|;
    StripOfWindow(text, s, e);
  }

  lemma StripOfWindow(text: string, s: nat, e: nat)
    requires s <= e <= |text|
    ensures exists k :: s <= k && k + |Strip(text[s..e])| <= e && OccursAt(text, Strip(text[s..e]), k)
  {
    var w := text[s..e];
    StripOccurs(w);
    OccursInSlice(text, s, e, Strip(w), StripStart(w));
  }

  /** The words the fallback outcome must end with. */
  const FallbackKeywords: seq<string> :=
    ["discharged", "quashed", "allowed", "dismissed", "disposed", "granted", "rejected", "upheld"]

  predicate AllLowerLetters(w: string)
  {
    forall i :: 0 <= i < |w| ==> IsLowerLetter(w[i])
  }

  lemma KeywordsAreWords()
    ensures forall kw :: kw in FallbackKeywords ==> kw != [] && AllLowerLetters(kw)
  {
  }

  /**
   * What group 1 of the fallback pattern `[^\n]{1,200}(?:discharged|...|upheld)`
   * can be: one to 200 characters other than a newline, then a keyword in any
   * case.
   */
  predicate FallbackShape(g: string)
  {
    exists kw :: kw in FallbackKeywords && |kw| < |g| <= |kw| + 200 && '\n' !in g && Lower(g[|g| - |kw|..]) == kw
  }

  /** A string whose lower-case form is made of lower-case letters holds no whitespace. */
  lemma LettersNotSpace(t: string, kw: string)
    requires Lower(t) == kw && AllLowerLetters(kw)
    ensures forall i :: 0 <= i < |t| ==> !IsSpace(t[i])
  {
    forall i | 0 <= i < |t|
      ensures !IsSpace(t[i])
    {
      assert Lower(t)[i] == ToLowerChar(t[i]);
    }
  }

  /**
   * The fallback outcome holds no newline, ends with a keyword, and is at
   * most 200 characters plus that keyword: it can be longer than 200.
   */
  lemma FallbackOutcomeSpec(g: string)
    requires FallbackShape(g)
    ensures '\n' !in Strip(g)
    ensures exists kw :: (kw in FallbackKeywords && |kw| <= |Strip(g)| <= |kw| + 200
      && Lower(Strip(g)[|Strip(g)| - |kw|..]) == kw)
  {
    var kw :| kw in FallbackKeywords && |kw| < |g| <= |kw| + 200 && '\n' !in g && Lower(g[|g| - |kw|..]) == kw;
    KeywordsAreWords();
    StripEndsWithWord(g, kw);
    NoNewlineSuffix(g, StripStart(g));
  }

  /** Stripping a string that ends with a word of letters keeps that word at its end. */
  lemma StripEndsWithWord(g: string, kw: string)
    requires kw != [] && AllLowerLetters(kw) && |kw| < |g| && Lower(g[|g| - |kw|..]) == kw
    ensures |kw| <= |Strip(g)| <= |g| && Lower(Strip(g)[|Strip(g)| - |kw|..]) == kw
  {
    var n := |kw|;
    var tail := g[|g| - n..];
    LettersNotSpace(tail, kw);
    assert forall i :: |g| - n <= i < |g| ==> g[i] == tail[i - (|g| - n)];
    StripKeepsTail(g, n);
    var r := Strip(g);
    assert r[|r| - n..] == tail;
  }

  lemma NoNewlineSuffix(g: string, k: nat)
    requires k <= |g| && '\n' !in g
    ensures '\n' !in g[k..]
  {
    assert forall i :: 0 <= i < |g| - k ==> g[k..][i] == g[k + i];
  }

  /** `data["outcome"]`: the window after the outcome clause, else the fallback group, else "". */
  function Outcome(text: string, start: Option<nat>, fallback: Option<string>): string
    requires start.Some? ==> start.value <= |text|
  {
    match start
    case Some(s) => PrimaryOutcome(text, s)
    case None => GroupOrEmpty(fallback)
  }

  // ---------------------------------------------------------------------
  // Named-entity merge

  /**
   * `role in text.lower().split(ent.lower())[-1]`: the role word occurs in
   * the lower-cased text after the entity's last occurrence.
   */
  predicate RoleAfter(text: string, ent: string, role: string)
  {
    ent != [] && Contains(LastPiece(Lower(text), Lower(ent), 0), role)
  }

  predicate IsCourtEntity(e: Entity)
  {
    e.kind == "ORG" && ContainsCI(e.text, "court")
  }

  predicate IsDateEntity(e: Entity)
  {
    e.kind == "DATE"
  }

  predicate IsJudgeEntity(text: string, e: Entity)
  {
    e.kind == "PERSON" && RoleAfter(text, e.text, "judge")
  }

  predicate IsPartyEntity(text: string, e: Entity, role: string)
  {
    e.kind == "PERSON" && RoleAfter(text, e.text, role)
  }

  predicate NonEmptyTexts(ents: seq<Entity>)
  {
    forall e :: e in ents ==> e.text != []
  }

  /** One pass of the entity loop body (ocr.py:160-169): the first branch that applies wins. */
  function Step(r: CaseRecord, text: string, e: Entity): CaseRecord
  {
    if IsCourtEntity(e) && r.court == "" then r.(court := e.text)
    else if IsDateEntity(e) && r.date == "" then r.(date := e.text)
    else if IsJudgeEntity(text, e) && r.judge == "" then r.(judge := e.text)
    else if IsPartyEntity(text, e, "petitioner") then r.(petitioners := r.petitioners + [e.text])
    else if IsPartyEntity(text, e, "respondent") then r.(respondents := r.respondents + [e.text])
    else r
  }

  /** The entity loop from `r` over `ents`, in order. */
  function MergeAll(r: CaseRecord, text: string, ents: seq<Entity>): CaseRecord
    decreases |ents|
  {
    if ents == [] then r else MergeAll(Step(r, text, ents[0]), text, ents[1..])
  }

  /** The text of the first entity that satisfies `p`, or "" when there is none. */
  function FirstText(ents: seq<Entity>, p: Entity -> bool): string
  {
    if ents == [] then "" else if p(ents[0]) then ents[0].text else FirstText(ents[1..], p)
  }

  /** The first match is a matching entity's text, and is "" only when nothing matches. */
  lemma {:induction false} FirstTextSpec(ents: seq<Entity>, p: Entity -> bool)
    requires NonEmptyTexts(ents)
    ensures FirstText(ents, p) == "" <==> forall e :: e in ents ==> !p(e)
    ensures FirstText(ents, p) != "" ==> exists e :: e in ents && p(e) && e.text == FirstText(ents, p)
  {
    if ents != [] {
      FirstTextSpec(ents[1..], p);
      assert forall e :: e in ents[1..] ==> e in ents;
      if !p(ents[0]) {
        assert forall e :: e in ents ==> e == ents[0] || e in ents[1..];
      }
    }
  }

  /** The entity fills the empty judge field (the third branch of the loop body). */
  predicate TakenAsJudge(r: CaseRecord, text: string, e: Entity)
  {
    r.judge == "" && IsJudgeEntity(text, e)
  }

  /** The entity is appended to the petitioners: it qualifies and no earlier branch took it. */
  predicate TakenAsPetitioner(r: CaseRecord, text: string, e: Entity)
  {
    IsPartyEntity(text, e, "petitioner") && !TakenAsJudge(r, text, e)
  }

  /** The entity is appended to the respondents: it qualifies and no earlier branch took it. */
  predicate TakenAsRespondent(r: CaseRecord, text: string, e: Entity)
  {
    IsPartyEntity(text, e, "respondent") && !IsPartyEntity(text, e, "petitioner") && !TakenAsJudge(r, text, e)
  }

  /**
   * What one step does to each field: each field changes exactly when its
   * branch is the first that applies, and no two branches apply together.
   */
  lemma StepFields(r: CaseRecord, text: string, e: Entity)
    ensures Step(r, text, e).court == if r.court == "" && IsCourtEntity(e) then e.text else r.court
    ensures Step(r, text, e).date == if r.date == "" && IsDateEntity(e) then e.text else r.date
    ensures Step(r, text, e).judge == if TakenAsJudge(r, text, e) then e.text else r.judge
    ensures Step(r, text, e).petitioners
      == if TakenAsPetitioner(r, text, e) then r.petitioners + [e.text] else r.petitioners
    ensures Step(r, text, e).respondents
      == if TakenAsRespondent(r, text, e) then r.respondents + [e.text] else r.respondents
    ensures !(TakenAsJudge(r, text, e) && TakenAsPetitioner(r, text, e))
    ensures !(TakenAsJudge(r, text, e) && TakenAsRespondent(r, text, e))
    ensures !(TakenAsPetitioner(r, text, e) && TakenAsRespondent(r, text, e))
    ensures (IsCourtEntity(e) || IsDateEntity(e)) ==>
      !TakenAsJudge(r, text, e) && !IsPartyEntity(text, e, "petitioner") && !IsPartyEntity(text, e, "respondent")
    ensures var s := Step(r, text, e);
      s.caseId == r.caseId && s.sections == r.sections && s.outcome == r.outcome && s.fullText == r.fullText
  {
  }

  /**
   * The court is filled once: a non-empty court is never overwritten, and an
   * empty one receives the first entity that names a court.
   */
  lemma {:induction false} MergeCourt(r: CaseRecord, text: string, ents: seq<Entity>)
    requires NonEmptyTexts(ents)
    ensures MergeAll(r, text, ents).court == (if r.court != "" then r.court else FirstText(ents, IsCourtEntity))
    decreases |ents|
  {
    if ents != [] {
      assert forall e :: e in ents[1..] ==> e in ents;
      StepFields(r, text, ents[0]);
      MergeCourt(Step(r, text, ents[0]), text, ents[1..]);
    }
  }

  /** The date is filled once, from the first DATE entity. */
  lemma {:induction false} MergeDate(r: CaseRecord, text: string, ents: seq<Entity>)
    requires NonEmptyTexts(ents)
    ensures MergeAll(r, text, ents).date == (if r.date != "" then r.date else FirstText(ents, IsDateEntity))
    decreases |ents|
  {
    if ents != [] {
      assert forall e :: e in ents[1..] ==> e in ents;
      StepFields(r, text, ents[0]);
      MergeDate(Step(r, text, ents[0]), text, ents[1..]);
    }
  }

  /** The judge is filled once, from the first PERSON entity that "judge" follows. */
  lemma {:induction false} MergeJudge(r: CaseRecord, text: string, ents: seq<Entity>)
    requires NonEmptyTexts(ents)
    ensures MergeAll(r, text, ents).judge == (if r.judge != "" then r.judge else FirstText(ents, e => IsJudgeEntity(text, e)))
    decreases |ents|
  {
    if ents != [] {
      assert forall e :: e in ents[1..] ==> e in ents;
      StepFields(r, text, ents[0]);
      MergeJudge(Step(r, text, ents[0]), text, ents[1..]);
    }
  }

  /** The entity loop touches no field but court, date, judge and the two party lists. */
  lemma {:induction false} MergeKeepsRest(r: CaseRecord, text: string, ents: seq<Entity>)
    ensures var m := MergeAll(r, text, ents);
      m.caseId == r.caseId && m.sections == r.sections && m.outcome == r.outcome && m.fullText == r.fullText
    decreases |ents|
  {
    if ents != [] {
      StepFields(r, text, ents[0]);
      MergeKeepsRest(Step(r, text, ents[0]), text, ents[1..]);
    }
  }

  /** The texts of the entities that qualify for a party list, in order. */
  function PartyTexts(text: string, ents: seq<Entity>, role: string): seq<string>
  {
    if ents == [] then []
    else (if IsPartyEntity(text, ents[0], role) then [ents[0].text] else []) + PartyTexts(text, ents[1..], role)
  }

  lemma {:induction false} PartyTextsSpec(text: string, ents: seq<Entity>, role: string, x: string)
    ensures x in PartyTexts(text, ents, role) <==> exists e :: e in ents && IsPartyEntity(text, e, role) && e.text == x
  {
    if ents != [] {
      PartyTextsSpec(text, ents[1..], role, x);
      assert forall e :: e in ents <==> e == ents[0] || e in ents[1..];
    }
  }

  /** The texts of the entities that qualify as respondents but not as petitioners, in order. */
  function RespondentTexts(text: string, ents: seq<Entity>): seq<string>
  {
    if ents == [] then []
    else
      var head := if IsPartyEntity(text, ents[0], "respondent") && !IsPartyEntity(text, ents[0], "petitioner") then [ents[0].text] else [];
      head + RespondentTexts(text, ents[1..])
  }

  /** The entities with the first one that satisfies `p` (if any) taken out. */
  function WithoutFirst(ents: seq<Entity>, p: Entity -> bool): seq<Entity>
  {
    if ents == [] then []
    else if p(ents[0]) then ents[1..]
    else [ents[0]] + WithoutFirst(ents[1..], p)
  }

  /** The entities with the first judge candidate (if any) taken out. */
  function WithoutFirstJudge(text: string, ents: seq<Entity>): seq<Entity>
  {
    WithoutFirst(ents, e => IsJudgeEntity(text, e))
  }

  /** The index of the first entity that satisfies `p`, or `|ents|` when none does. */
  function FirstIndex(ents: seq<Entity>, p: Entity -> bool): (k: nat)
    ensures k <= |ents|
    ensures forall i :: 0 <= i < k ==> !p(ents[i])
    ensures k < |ents| ==> p(ents[k])
  {
    if ents == [] then 0 else if p(ents[0]) then 0 else 1 + FirstIndex(ents[1..], p)
  }

  /**
   * `WithoutFirst` removes exactly the first entity that satisfies `p`, and
   * leaves the list alone when none does.
   */
  lemma {:induction false} WithoutFirstSpec(ents: seq<Entity>, p: Entity -> bool)
    ensures FirstIndex(ents, p) == |ents| ==> WithoutFirst(ents, p) == ents
    ensures FirstIndex(ents, p) < |ents| ==>
      WithoutFirst(ents, p) == ents[..FirstIndex(ents, p)] + ents[FirstIndex(ents, p) + 1..]
  {
    if ents != [] && !p(ents[0]) {
      var rest := ents[1..];
      WithoutFirstSpec(rest, p);
      var k := FirstIndex(rest, p);
      assert FirstIndex(ents, p) == k + 1;
      if k == |rest| {
        assert ents == [ents[0]] + rest;
      } else {
        assert ents[..k + 1] == [ents[0]] + rest[..k];
        assert ents[k + 2..] == rest[k + 1..];
      }
    } else if ents != [] {
      assert ents[..0] + ents[1..] == ents[1..];
    }
  }

  /** An entity that is not a judge candidate stays at the head. */
  lemma WithoutFirstJudgeCons(text: string, ents: seq<Entity>)
    requires ents != [] && !IsJudgeEntity(text, ents[0])
    ensures WithoutFirstJudge(text, ents) == [ents[0]] + WithoutFirstJudge(text, ents[1..])
  {
  }

  /** A judge candidate at the head is the one taken out. */
  lemma WithoutFirstJudgeHead(text: string, ents: seq<Entity>)
    requires ents != [] && IsJudgeEntity(text, ents[0])
    ensures WithoutFirstJudge(text, ents) == ents[1..]
  {
  }

  lemma PartyTextsCons(text: string, e: Entity, rest: seq<Entity>, role: string)
    ensures PartyTexts(text, [e] + rest, role)
      == (if IsPartyEntity(text, e, role) then [e.text] else []) + PartyTexts(text, rest, role)
  {
    assert ([e] + rest)[0] == e && ([e] + rest)[1..] == rest;
  }

  lemma RespondentTextsCons(text: string, e: Entity, rest: seq<Entity>)
    ensures RespondentTexts(text, [e] + rest)
      == (if IsPartyEntity(text, e, "respondent") && !IsPartyEntity(text, e, "petitioner") then [e.text] else [])
        + RespondentTexts(text, rest)
  {
    assert ([e] + rest)[0] == e && ([e] + rest)[1..] == rest;
  }

  /** The entities the party lists draw from: all of them once a judge is set, else all but the first judge candidate. */
  function Pool(judge: string, text: string, ents: seq<Entity>): seq<Entity>
  {
    if judge == "" then WithoutFirstJudge(text, ents) else ents
  }

  /** The pool after one entity: a judge candidate taken as judge leaves the rest whole. */
  lemma PoolStep(r: CaseRecord, text: string, ents: seq<Entity>)
    requires ents != []
    ensures TakenAsJudge(r, text, ents[0]) ==> Pool(r.judge, text, ents) == ents[1..]
    ensures !TakenAsJudge(r, text, ents[0]) ==> Pool(r.judge, text, ents) == [ents[0]] + Pool(r.judge, text, ents[1..])
  {
    if r.judge == "" {
      if IsJudgeEntity(text, ents[0]) {
        WithoutFirstJudgeHead(text, ents);
      } else {
        WithoutFirstJudgeCons(text, ents);
      }
    } else {
      assert ents == [ents[0]] + ents[1..];
    }
  }

  /**
   * The petitioner list after the loop is the list before it followed by
   * every petitioner candidate in order, except the entity taken as judge:
   * while the judge field is empty the first judge candidate goes there
   * instead, and once it is filled nothing is withheld.
   */
  lemma {:induction false} MergeGrowsPetitioners(r: CaseRecord, text: string, ents: seq<Entity>)
    ensures MergeAll(r, text, ents).petitioners == r.petitioners + PartyTexts(text, Pool(r.judge, text, ents), "petitioner")
    ensures r.judge != "" ==> MergeAll(r, text, ents).petitioners == r.petitioners + PartyTexts(text, ents, "petitioner")
    decreases |ents|
  {
    if ents != [] {
      MergeGrowsPetitioners(Step(r, text, ents[0]), text, ents[1..]);
      PetitionersStep(r, text, ents);
    }
  }

  /** One entity of `MergeGrowsPetitioners`, given the entities after it. */
  lemma PetitionersStep(r: CaseRecord, text: string, ents: seq<Entity>)
    requires ents != []
    requires var s := Step(r, text, ents[0]);
      MergeAll(s, text, ents[1..]).petitioners == s.petitioners + PartyTexts(text, Pool(s.judge, text, ents[1..]), "petitioner")
    ensures MergeAll(r, text, ents).petitioners == r.petitioners + PartyTexts(text, Pool(r.judge, text, ents), "petitioner")
  {
    var e := ents[0];
    var s := Step(r, text, e);
    assert MergeAll(r, text, ents) == MergeAll(s, text, ents[1..]);
    StepFields(r, text, e);
    PoolStep(r, text, ents);
    if TakenAsJudge(r, text, e) {
      assert s.judge == e.text && e.text != [];
      assert Pool(s.judge, text, ents[1..]) == ents[1..];
    } else {
      var rest := Pool(r.judge, text, ents[1..]);
      assert s.judge == r.judge;
      PartyTextsCons(text, e, rest, "petitioner");
      var head := if IsPartyEntity(text, e, "petitioner") then [e.text] else [];
      assert s.petitioners == r.petitioners + head;
      Regroup(r.petitioners, head, PartyTexts(text, rest, "petitioner"));
    }
  }

  /**
   * The respondent list after the loop is the list before it followed by
   * every respondent candidate that is not also a petitioner candidate, in
   * order, except the entity taken as judge (as for the petitioners).
   */
  lemma {:induction false} MergeGrowsRespondents(r: CaseRecord, text: string, ents: seq<Entity>)
    ensures MergeAll(r, text, ents).respondents == r.respondents + RespondentTexts(text, Pool(r.judge, text, ents))
    ensures r.judge != "" ==> MergeAll(r, text, ents).respondents == r.respondents + RespondentTexts(text, ents)
    decreases |ents|
  {
    if ents != [] {
      MergeGrowsRespondents(Step(r, text, ents[0]), text, ents[1..]);
      RespondentsStep(r, text, ents);
    }
  }

  /** One entity of `MergeGrowsRespondents`, given the entities after it. */
  lemma RespondentsStep(r: CaseRecord, text: string, ents: seq<Entity>)
    requires ents != []
    requires var s := Step(r, text, ents[0]);
      MergeAll(s, text, ents[1..]).respondents == s.respondents + RespondentTexts(text, Pool(s.judge, text, ents[1..]))
    ensures MergeAll(r, text, ents).respondents == r.respondents + RespondentTexts(text, Pool(r.judge, text, ents))
  {
    var e := ents[0];
    var s := Step(r, text, e);
    assert MergeAll(r, text, ents) == MergeAll(s, text, ents[1..]);
    StepFields(r, text, e);
    PoolStep(r, text, ents);
    if TakenAsJudge(r, text, e) {
      assert s.judge == e.text && e.text != [];
      assert Pool(s.judge, text, ents[1..]) == ents[1..];
    } else {
      var rest := Pool(r.judge, text, ents[1..]);
      assert s.judge == r.judge;
      RespondentTextsCons(text, e, rest);
      var head := if IsPartyEntity(text, e, "respondent") && !IsPartyEntity(text, e, "petitioner") then [e.text] else [];
      assert s.respondents == r.respondents + head;
      Regroup(r.respondents, head, RespondentTexts(text, rest));
    }
  }

  // ---------------------------------------------------------------------
  // The record

  /** The record before the entity loop: every pattern's result, or "" / [] where it found nothing. */
  function Initial(text: string, m: Matches, sections: seq<string>): CaseRecord
    requires m.outcomeStart.Some? ==> m.outcomeStart.value <= |text|
  {
    CaseRecord(
      GroupOrEmpty(m.caseId), GroupOrEmpty(m.court), GroupOrEmpty(m.date), GroupOrEmpty(m.judge),
      PartyField(m.petitionerBlock), PartyField(m.respondentBlock), sections,
      Outcome(text, m.outcomeStart, m.fallbackOutcome), text)
  }

  /** `list(set(...))` on both party lists. */
  function Finish(r: CaseRecord): CaseRecord
  {
    r.(petitioners := Dedup(r.petitioners), respondents := Dedup(r.respondents))
  }

  /** The record `parse_judgment_text` returns. */
  function Parsed(text: string, m: Matches, ents: seq<Entity>): CaseRecord
    requires m.outcomeStart.Some? ==> m.outcomeStart.value <= |text|
  {
    Finish(MergeAll(Initial(text, m, Dedup(AllTokens(m.sectionClauses))), text, ents))
  }

  /** The entity loop of `parse_judgment_text`, from the record the patterns built. */
  method MergeEntities(start: CaseRecord, text: string, ents: seq<Entity>) returns (rec: CaseRecord)
    ensures rec == MergeAll(start, text, ents)
  {
    rec := start;
    var i := 0;
    while i < |ents|
      invariant 0 <= i <= |ents|
      invariant MergeAll(rec, text, ents[i..]) == MergeAll(start, text, ents)
    {
      var e := ents[i];
      assert ents[i..][1..] == ents[i + 1..];
      if e.kind == "ORG" && ContainsCI(e.text, "court") && rec.court == "" {
        rec := rec.(court := e.text);
      } else if e.kind == "DATE" && rec.date == "" {
        rec := rec.(date := e.text);
      } else if e.kind == "PERSON" && RoleAfter(text, e.text, "judge") && rec.judge == "" {
        rec := rec.(judge := e.text);
      } else if e.kind == "PERSON" && RoleAfter(text, e.text, "petitioner") {
        rec := rec.(petitioners := rec.petitioners + [e.text]);
      } else if e.kind == "PERSON" && RoleAfter(text, e.text, "respondent") {
        rec := rec.(respondents := rec.respondents + [e.text]);
      }
      i := i + 1;
    }
  }

  /** `parse_judgment_text(text)`: the fields in source order, then the entity loop, then the dedup. */
  method ParseJudgmentText(text: string, m: Matches, ents: seq<Entity>) returns (rec: CaseRecord)
    requires m.outcomeStart.Some? ==> m.outcomeStart.value <= |text|
    ensures rec == Parsed(text, m, ents)
  {
    rec := CaseRecord("", "", "", "", [], [], [], "", text);
    rec := rec.(caseId := GroupOrEmpty(m.caseId));
    rec := rec.(court := GroupOrEmpty(m.court));
    rec := rec.(date := GroupOrEmpty(m.date));
    rec := rec.(judge := GroupOrEmpty(m.judge));
    if m.petitionerBlock.Some? {
      rec := rec.(petitioners := PartyLines(m.petitionerBlock.value));
    }
    if m.respondentBlock.Some? {
      rec := rec.(respondents := PartyLines(m.respondentBlock.value));
    }
    var sections := CollectSections(m.sectionClauses);
    rec := rec.(sections := sections);
    match m.outcomeStart {
      case Some(s) =>
        rec := rec.(outcome := PrimaryOutcome(text, s));
      case None =>
        rec := rec.(outcome := GroupOrEmpty(m.fallbackOutcome));
    }
    assert rec == Initial(text, m, sections);
    rec := MergeEntities(rec, text, ents);
    rec := rec.(petitioners := Dedup(rec.petitioners), respondents := Dedup(rec.respondents));
  }

  /**
   * The returned record: the text is kept whole; a field whose pattern found
   * nothing stays "" unless an entity fills it; court, date and judge come
   * from their pattern first and from the first qualifying entity otherwise;
   * the section list and both party lists hold no duplicates.
   */
  lemma ParsedSpec(text: string, m: Matches, ents: seq<Entity>)
    requires m.outcomeStart.Some? ==> m.outcomeStart.value <= |text|
    requires NonEmptyTexts(ents)
    ensures var rec := Parsed(text, m, ents);
      && rec.fullText == text
      && rec.caseId == GroupOrEmpty(m.caseId)
      && (m.caseId.None? ==> rec.caseId == "")
      && rec.court == (if GroupOrEmpty(m.court) != "" then GroupOrEmpty(m.court) else FirstText(ents, IsCourtEntity))
      && rec.date == (if GroupOrEmpty(m.date) != "" then GroupOrEmpty(m.date) else FirstText(ents, IsDateEntity))
      && rec.judge == (if GroupOrEmpty(m.judge) != "" then GroupOrEmpty(m.judge) else FirstText(ents, e => IsJudgeEntity(text, e)))
      && rec.outcome == Outcome(text, m.outcomeStart, m.fallbackOutcome)
      && NoDups(rec.sections) && (forall t :: t in rec.sections ==> IsSectionToken(t))
      && NoDups(rec.petitioners) && NoDups(rec.respondents)
  {
    var init := Initial(text, m, Dedup(AllTokens(m.sectionClauses)));
    MergeCourt(init, text, ents);
    MergeDate(init, text, ents);
    MergeJudge(init, text, ents);
    MergeKeepsRest(init, text, ents);
    CollectedAreTokens(m.sectionClauses);
  }

  /**
   * The returned party lists: the lines of the party block, then the
   * qualifying entities in order (the first judge candidate withheld while
   * no judge was matched), with duplicates dropped.
   */
  lemma ParsedParties(text: string, m: Matches, ents: seq<Entity>)
    requires m.outcomeStart.Some? ==> m.outcomeStart.value <= |text|
    ensures var pool := Pool(GroupOrEmpty(m.judge), text, ents);
      && Parsed(text, m, ents).petitioners == Dedup(PartyField(m.petitionerBlock) + PartyTexts(text, pool, "petitioner"))
      && Parsed(text, m, ents).respondents == Dedup(PartyField(m.respondentBlock) + RespondentTexts(text, pool))
  {
    var init := Initial(text, m, Dedup(AllTokens(m.sectionClauses)));
    MergeGrowsPetitioners(init, text, ents);
    MergeGrowsRespondents(init, text, ents);
  }

  /** A court taken from an entity names a court. */
  lemma ParsedCourtFromEntity(text: string, m: Matches, ents: seq<Entity>)
    requires m.outcomeStart.Some? ==> m.outcomeStart.value <= |text|
    requires NonEmptyTexts(ents)
    requires GroupOrEmpty(m.court) == ""
    ensures Parsed(text, m, ents).court == "" || ContainsCI(Parsed(text, m, ents).court, "court")
  {
    ParsedSpec(text, m, ents);
    FirstTextSpec(ents, IsCourtEntity);
  }
}

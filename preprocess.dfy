/**
 * `preprocess_json` (preprocess.py:27-88): the second pass over a record.
 * The full text is cleaned first; the patterns then run on the cleaned
 * text, and each field is either rewritten from what they found or kept.
 * What the large patterns found arrives as `CleanMatches`.
 */
module Preprocess {
  import opened Wrappers
  import opened Text
  import opened Normalizer
  import opened Sections
  import opened Parties
  import opened Extraction

  /**
   * What the patterns of the second pass found in the cleaned text: group 0
   * of the case-number pattern, group 1 of the court, date and outcome
   * patterns, group 1 of the first judge pattern that matched (the
   * "JUSTICE"/"Judge" one, else the "Sd/-" one), and group 1 of every
   * match of the sections pattern, in order.
   */
  datatype CleanMatches = CleanMatches(
    caseId: Option<string>,
    court: Option<string>,
    date: Option<string>,
    judge: Option<string>,
    sectionClauses: seq<string>,
    outcome: Option<string>)

  /** How many characters of the captured outcome clause are kept. */
  const OutcomeLimit: nat := 200

  /** The case number is looked for only when the record has none; no match leaves it empty. */
  function CaseIdField(prev: string, g: Option<string>): string
  {
    if prev == "" then GroupOrEmpty(g) else prev
  }

  /** The matched court, else the first line of the old court, stripped. */
  function CourtField(prev: string, g: Option<string>): string
  {
    match g
    case Some(c) => Strip(c)
    case None => Strip(Split(prev, '\n')[0])
  }

  /** The matched group stripped, else the old value (date and judge). */
  function MatchedOr(prev: string, g: Option<string>): string
  {
    match g
    case Some(x) => Strip(x)
    case None => prev
  }

  /** The tokens of the clauses without duplicates; when there are none, the old list. */
  function SectionsField(prev: seq<string>, clauses: seq<string>): seq<string>
  {
    var toks := AllTokens(clauses);
    if toks == [] then prev else Dedup(toks)
  }

  /** The captured clause stripped and cut to 200 characters, else the old outcome. */
  function OutcomeField(prev: string, g: Option<string>): string
  {
    match g
    case Some(o) => Take(Strip(o), OutcomeLimit)
    case None => prev
  }

  /** The record `preprocess_json` returns. */
  function Preprocessed(data: CaseRecord, m: CleanMatches): CaseRecord
  {
    CaseRecord(
      caseId := CaseIdField(data.caseId, m.caseId),
      court := CourtField(data.court, m.court),
      date := MatchedOr(data.date, m.date),
      judge := MatchedOr(data.judge, m.judge),
      petitioners := Dedup(KeptBy(data.petitioners, NameOf)),
      respondents := Dedup(KeptBy(data.respondents, NameOf)),
      sections := SectionsField(data.sections, m.sectionClauses),
      outcome := OutcomeField(data.outcome, m.outcome),
      fullText := CleanText(data.fullText))
  }

  /**
   * `preprocess_json(data)`: a copy of the record rewritten field by field,
   * with the sections gathered clause by clause before the duplicates go.
   */
  method PreprocessJson(data: CaseRecord, m: CleanMatches) returns (cleaned: CaseRecord)
    ensures cleaned == Preprocessed(data, m)
  {
    var fullText := CleanText(data.fullText);
    cleaned := data;

    if cleaned.caseId == "" {
      cleaned := cleaned.(caseId := GroupOrEmpty(m.caseId));
    }

    match m.court {
      case Some(c) => cleaned := cleaned.(court := Strip(c));
      case None => cleaned := cleaned.(court := Strip(Split(cleaned.court, '\n')[0]));
    }

    match m.date {
      case Some(d) => cleaned := cleaned.(date := Strip(d));
      case None =>
    }

    match m.judge {
      case Some(j) => cleaned := cleaned.(judge := Strip(j));
      case None =>
    }

    var pets := CleanNames(cleaned.petitioners);
    var resps := CleanNames(cleaned.respondents);
    cleaned := cleaned.(petitioners := pets, respondents := resps);

    var sections := GatherSections(cleaned.sections, m.sectionClauses);
    cleaned := cleaned.(sections := sections);

    match m.outcome {
      case Some(o) => cleaned := cleaned.(outcome := Take(Strip(o), OutcomeLimit));
      case None =>
    }

    cleaned := cleaned.(fullText := fullText);
  }

  /**
   * The sections step of `preprocess_json` (preprocess.py:67-78): the tokens
   * of every clause, appended in turn; the old list stays when there are none.
   */
  method GatherSections(prev: seq<string>, clauses: seq<string>) returns (secs: seq<string>)
    ensures secs == SectionsField(prev, clauses)
  {
    var sections: seq<string> := [];
    var i := 0;
    while i < |clauses|
      invariant 0 <= i <= |clauses|
      invariant sections == AllTokens(clauses[..i])
    {
      var toks := ClauseTokensOf(clauses[i]);
      sections := sections + toks;
      AllTokensSnoc(clauses, i);
      i := i + 1;
    }
    assert clauses[..i] == clauses;
    secs := if sections != [] then Dedup(sections) else prev;
  }

  // ---------------------------------------------------------------------
  // What the second pass promises

  /** A case number already present is kept; with none and no match, the record stays without one. */
  lemma PreprocessCaseId(data: CaseRecord, m: CleanMatches)
    ensures data.caseId != "" ==> Preprocessed(data, m).caseId == data.caseId
    ensures data.caseId == "" && m.caseId.None? ==> Preprocessed(data, m).caseId == ""
    ensures data.caseId == "" && m.caseId.Some? ==> Preprocessed(data, m).caseId == Strip(m.caseId.value)
  {
  }

  /** The first piece of a split is the string up to the first separator, or all of it. */
  lemma FirstPiece(s: string, sep: char)
    ensures var p := Split(s, sep)[0];
      |p| <= |s| && p == s[..|p|] && sep !in p && (|p| == |s| || s[|p|] == sep)
  {
    if sep in s {
      var i := IndexOf(s, sep);
      assert Split(s, sep)[0] == s[..i];
    } else {
      assert s[..|s|] == s;
    }
  }

  /**
   * Without a court match, the new court is the old court's first line,
   * stripped: a piece of the old court that holds no newline.
   */
  lemma PreprocessCourt(data: CaseRecord, m: CleanMatches)
    requires m.court.None?
    ensures '\n' !in Preprocessed(data, m).court
    ensures exists k :: (0 <= k <= |data.court| && '\n' !in data.court[..k]
      && (k == |data.court| || data.court[k] == '\n')
      && Preprocessed(data, m).court == Strip(data.court[..k]))
  {
    assert Preprocessed(data, m).court == CourtField(data.court, None);
    CourtFirstLine(data.court);
  }

  /** The old court's first line, stripped, is a newline-free piece of it. */
  lemma CourtFirstLine(prev: string)
    ensures '\n' !in CourtField(prev, None)
    ensures exists k :: (0 <= k <= |prev| && '\n' !in prev[..k]
      && (k == |prev| || prev[k] == '\n')
      && CourtField(prev, None) == Strip(prev[..k]))
  {
    FirstPiece(prev, '\n');
    var p := Split(prev, '\n')[0];
    StripLacks(p, '\n');
    assert prev[..|p|] == p;
  }

  /**
   * Sections: when no clause gives a token the old list stays; otherwise
   * the list holds each token of the clauses once, and nothing else.
   */
  lemma PreprocessSections(data: CaseRecord, m: CleanMatches)
    ensures AllTokens(m.sectionClauses) == [] ==> Preprocessed(data, m).sections == data.sections
    ensures AllTokens(m.sectionClauses) != [] ==>
      && Preprocessed(data, m).sections != []
      && NoDups(Preprocessed(data, m).sections)
      && (forall t :: t in Preprocessed(data, m).sections <==> t in AllTokens(m.sectionClauses))
      && (forall t :: t in Preprocessed(data, m).sections ==> IsSectionToken(t))
  {
    AllTokensAreTokens(m.sectionClauses);
  }

  /** A new outcome is a prefix of the stripped clause, at most 200 characters long; else the old one stays. */
  lemma PreprocessOutcome(data: CaseRecord, m: CleanMatches)
    ensures m.outcome.None? ==> Preprocessed(data, m).outcome == data.outcome
    ensures m.outcome.Some? ==>
      && |Preprocessed(data, m).outcome| <= OutcomeLimit
      && StartsWith(Strip(m.outcome.value), Preprocessed(data, m).outcome)
      && (|Strip(m.outcome.value)| <= OutcomeLimit ==> Preprocessed(data, m).outcome == Strip(m.outcome.value))
  {
  }

  /**
   * The stored full text is the cleaned text: canonical, with every visible
   * character of the original in order, and unchanged by a second pass.
   */
  lemma PreprocessFullText(data: CaseRecord, m: CleanMatches)
    ensures Canonical(Preprocessed(data, m).fullText)
    ensures Visible(Preprocessed(data, m).fullText) == Visible(data.fullText)
    ensures Preprocessed(Preprocessed(data, m), m).fullText == Preprocessed(data, m).fullText
  {
    CleanTextCanonical(data.fullText);
    CleanTextKeepsVisible(data.fullText);
    CleanTextIdempotent(data.fullText);
  }

  /**
   * The party lists hold no duplicates, and every name in them comes from
   * an entry of the old list whose cleaned text carried no marker.
   */
  lemma PreprocessParties(data: CaseRecord, m: CleanMatches)
    ensures NoDups(Preprocessed(data, m).petitioners) && NoDups(Preprocessed(data, m).respondents)
    ensures forall x :: x in Preprocessed(data, m).petitioners ==>
      exists raw :: raw in data.petitioners && !HasMarker(CleanText(raw)) && IsPartyName(CleanText(raw), x)
    ensures forall x :: x in Preprocessed(data, m).respondents ==>
      exists raw :: raw in data.respondents && !HasMarker(CleanText(raw)) && IsPartyName(CleanText(raw), x)
  {
    CleanNamesSpec(data.petitioners);
    CleanNamesSpec(data.respondents);
  }
}

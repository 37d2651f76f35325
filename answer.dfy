/**
 * `generate_natural_response` (app.py:83-128): the answer the chatbot
 * shows for a shortlist of hits. The text generator is not modelled: what
 * it returned for the prompt, or the message of the error it raised,
 * arrives as a `Generated` value.
 */
module Answer {
  import opened Wrappers
  import opened Text
  import opened VectorStore

  /** What the generator gave back: its text (prompt included), or an error message. */
  datatype Generated = Generated(text: string) | Failed(msg: string)

  /** The judge as the templates show it; after loading every entry has one. */
  function JudgeText(m: Meta): string
  {
    match m.judge
    case Some(j) => j
    case None => ""
  }

  /** Every hit of the shortlist has a judge, as the load fix-up guarantees. */
  predicate JudgesPresent(hits: seq<Hit>)
  {
    forall i :: 0 <= i < |hits| ==> hits[i].meta.judge.Some?
  }

  /** The answer when the shortlist is empty. */
  function Apology(query: string): (r: string)
    ensures StartsWith(r, "Sorry, I couldn\U{2019}t find any details for '")
    ensures Contains(r, query)
  {
    var parts := ["Sorry, I couldn\U{2019}t find any details for '", query,
      "' in the database. Please check the case ID or try a different question."];
    ConcatStarts(parts);
    ConcatContains(parts, 1);
    Concat(parts)
  }

  // ---------------------------------------------------------------------
  // The prompt

  /** How much of the full text goes into the context. */
  const ContextSnippet: nat := 200

  /** One line of the context: every field of the entry and the start of its text. */
  function ContextLine(m: Meta): (r: string)
    ensures Contains(r, m.caseId)
  {
    var parts := ["Case ID: ", m.caseId, " | Court: ", m.court, " | Date: ", m.date,
      " | Judge: ", JudgeText(m), " | Sections: ", Join(m.sections, ", "),
      " | Outcome: ", m.outcome, " | Full Text Snippet: ", Take(m.fullText, ContextSnippet), "..."];
    ConcatContains(parts, 1);
    Concat(parts)
  }

  function ContextLines(hits: seq<Hit>): (r: seq<string>)
    ensures |r| == |hits|
    ensures forall i :: 0 <= i < |hits| ==> r[i] == ContextLine(hits[i].meta)
  {
    seq(|hits|, i requires 0 <= i < |hits| => ContextLine(hits[i].meta))
  }

  /** The instructions that open the prompt. */
  const Instructions: string :=
    "System: You are a legal assistant providing detailed, human-like answers about court cases. "
    + "Focus on the user's query intent (e.g., 'outcome' for case results, 'judge' for judge details). "
    + "Use all available context\U{2014}case ID, court, date, judge, sections, outcome, and full text\U{2014}to craft a natural, accurate response. "
    + "If an exact case ID is asked, prioritize that case\U{2019}s details. Avoid technical jargon and invented info.\n"

  /** The prompt handed to the generator. */
  function Prompt(query: string, hits: seq<Hit>): (r: string)
    ensures StartsWith(r, Instructions) && EndsWith(r, "Response:")
    ensures Contains(r, query) && Contains(r, Join(ContextLines(hits), "\n"))
  {
    var parts := [Instructions, "User Query: ", query, "\n",
      "Context:\n", Join(ContextLines(hits), "\n"), "\n", "Response:"];
    ConcatStarts(parts);
    ConcatEnds(parts);
    ConcatContains(parts, 2);
    ConcatContains(parts, 5);
    Concat(parts)
  }

  // ---------------------------------------------------------------------
  // Cutting the generated text

  /** The position of the last occurrence of `c`. */
  function LastIndexOf(s: string, c: char): (i: nat)
    requires c in s
    ensures i < |s| && s[i] == c && c !in s[i + 1..]
  {
    if s[|s| - 1] == c then |s| - 1
    else
      assert s == s[..|s| - 1] + [s[|s| - 1]];
      LastIndexOf(s[..|s| - 1], c)
  }

  /**
   * The substitution of `\n.*$` by nothing: `.` stops at a newline and `$`
   * only matches at the end, so the one match starts at the last newline
   * and the text loses its last line.
   */
  function CutLastLine(t: string): string
  {
    if '\n' in t then t[..LastIndexOf(t, '\n')] else t
  }

  /** The cut the answer is meant to get: everything from the first newline goes. */
  function CutFirstLine(t: string): string
  {
    if '\n' in t then t[..IndexOf(t, '\n')] else t
  }

  /** The generated text without the echoed prompt, stripped and cut. */
  function Reply(g: string, prompt: string, cut: string -> string): string
  {
    cut(Strip(Drop(g, |prompt|)))
  }

  /** The shortest generated answer that is kept. */
  const MinAnswer: nat := 20

  /** The quality gate: long enough, and naming the case number of some shortlisted hit. */
  predicate Acceptable(r: string, hits: seq<Hit>)
  {
    |r| >= MinAnswer && exists i :: 0 <= i < |hits| && Contains(r, hits[i].meta.caseId)
  }

  // ---------------------------------------------------------------------
  // The templates

  /** A year in the query: `20` and two more digits, with a word boundary on each side. */
  predicate YearAt(q: string, i: nat)
  {
    i + 4 <= |q| && q[i] == '2' && q[i + 1] == '0' && IsDigit(q[i + 2]) && IsDigit(q[i + 3])
    && (i == 0 || !IsWordChar(q[i - 1]))
    && (i + 4 == |q| || !IsWordChar(q[i + 4]))
  }

  /** The first year in the query from position `i`. */
  function FirstYear(q: string, i: nat): (k: Option<nat>)
    requires i <= |q|
    ensures k.Some? ==> i <= k.value && YearAt(q, k.value)
    ensures forall j :: i <= j <= |q| && (k.None? || j < k.value) ==> !YearAt(q, j)
    decreases |q| - i
  {
    if YearAt(q, i) then Some(i)
    else if i == |q| then None
    else FirstYear(q, i + 1)
  }

  /** The answer to "outcome of case id": it names the top case, its outcome and its judge. */
  function OutcomeTemplate(m: Meta): (r: string)
    ensures StartsWith(r, "The outcome of ")
    ensures Contains(r, m.caseId) && Contains(r, m.outcome) && Contains(r, JudgeText(m))
  {
    var parts := ["The outcome of ", m.caseId, " was that it was ", m.outcome, " on ", m.date,
      " at ", m.court, ", presided over by ", JudgeText(m), "."];
    ConcatStarts(parts);
    ConcatContains(parts, 1);
    ConcatContains(parts, 3);
    ConcatContains(parts, 9);
    Concat(parts)
  }

  /** The answer to a question about the judge: it names the top case and its judge. */
  function JudgeTemplate(m: Meta): (r: string)
    ensures StartsWith(r, "The judge for ")
    ensures Contains(r, m.caseId) && Contains(r, JudgeText(m))
  {
    var parts := ["The judge for ", m.caseId, " was ", JudgeText(m), " in a case decided on ",
      m.date, " at ", m.court, "."];
    ConcatStarts(parts);
    ConcatContains(parts, 1);
    ConcatContains(parts, 3);
    Concat(parts)
  }

  /** The answer to any other question: it names the top case, its outcome and its judge. */
  function GenericTemplate(m: Meta): (r: string)
    ensures StartsWith(r, "For ")
    ensures Contains(r, m.caseId) && Contains(r, m.outcome) && Contains(r, JudgeText(m))
  {
    var parts := ["For ", m.caseId, ", the outcome was ", m.outcome, " on ", m.date,
      " at ", m.court, " with ", JudgeText(m), " presiding."];
    ConcatStarts(parts);
    ConcatContains(parts, 1);
    ConcatContains(parts, 3);
    ConcatContains(parts, 9);
    Concat(parts)
  }

  /** The hits decided in `year`: those whose date contains it. */
  function DatedIn(hits: seq<Hit>, year: string): seq<Hit>
  {
    Filter(hits, (h: Hit) => Contains(h.meta.date, year))
  }

  function YearOutcomes(rel: seq<Hit>): (r: seq<string>)
    ensures |r| == |rel|
    ensures forall i :: 0 <= i < |rel| ==>
      r[i] == rel[i].meta.caseId + " was " + rel[i].meta.outcome + " by " + JudgeText(rel[i].meta)
  {
    seq(|rel|, i requires 0 <= i < |rel| =>
      rel[i].meta.caseId + " was " + rel[i].meta.outcome + " by " + JudgeText(rel[i].meta))
  }

  /** The answer to a question about a year when no hit was decided in it. */
  function NoCasesIn(year: string): (r: string)
    ensures StartsWith(r, "I couldn\U{2019}t find cases from ")
    ensures Contains(r, year)
  {
    var parts := ["I couldn\U{2019}t find cases from ", year, " matching your query."];
    ConcatStarts(parts);
    ConcatContains(parts, 1);
    Concat(parts)
  }

  /** The answer to a question about a year: the hits decided in it, or a message that there are none. */
  function YearTemplate(year: string, hits: seq<Hit>): (r: string)
    ensures Contains(r, year)
    ensures DatedIn(hits, year) != [] ==> Contains(r, Join(YearOutcomes(DatedIn(hits, year)), ", "))
  {
    var rel := DatedIn(hits, year);
    if rel != [] then
      var parts := ["In ", year, ", at the High Court of Kerala, I found: ", Join(YearOutcomes(rel), ", "), "."];
      ConcatContains(parts, 1);
      ConcatContains(parts, 3);
      Concat(parts)
    else
      NoCasesIn(year)
  }

  /** The template answer, chosen by what the query asks about. */
  function Fallback(query: string, hits: seq<Hit>): string
    requires hits != []
  {
    var c := hits[0].meta;
    if ContainsCI(query, "outcome of case id") then OutcomeTemplate(c)
    else if ContainsCI(query, "judge") then JudgeTemplate(c)
    else YearOrGeneric(query, hits)
  }

  /** The last two choices: the year template for the first year, else the generic one. */
  function YearOrGeneric(query: string, hits: seq<Hit>): string
    requires hits != []
  {
    match FirstYear(query, 0)
    case Some(k) => YearTemplate(query[k..k + 4], hits)
    case None => GenericTemplate(hits[0].meta)
  }

  /** The answer when the generator raised. */
  function Trouble(msg: string, m: Meta): (r: string)
    ensures StartsWith(r, "I had trouble generating a response (")
    ensures Contains(r, msg) && Contains(r, m.caseId) && Contains(r, m.outcome)
  {
    var parts := ["I had trouble generating a response (", msg, "). For ", m.caseId, ", it was ",
      m.outcome, " on ", m.date, " at ", m.court, " with ", JudgeText(m), " presiding."];
    ConcatStarts(parts);
    ConcatContains(parts, 1);
    ConcatContains(parts, 3);
    ConcatContains(parts, 5);
    Concat(parts)
  }

  /** The whole of `generate_natural_response`, with the cut given as a parameter. */
  function Respond(query: string, hits: seq<Hit>, gen: Generated, cut: string -> string): string
    requires JudgesPresent(hits)
  {
    if hits == [] then Apology(query)
    else match gen
      case Failed(msg) => Trouble(msg, hits[0].meta)
      case Generated(g) =>
        var r := Reply(g, Prompt(query, hits), cut);
        if Acceptable(r, hits) then r else Fallback(query, hits)
  }

  /** `generate_natural_response` as written: the generated text loses its last line. */
  function GenerateResponse(query: string, hits: seq<Hit>, gen: Generated): string
    requires JudgesPresent(hits)
  {
    Respond(query, hits, gen, CutLastLine)
  }

  /** The same with the intended cut: only the first line of the generated text is kept. */
  function GenerateResponseFirstLine(query: string, hits: seq<Hit>, gen: Generated): string
    requires JudgesPresent(hits)
  {
    Respond(query, hits, gen, CutFirstLine)
  }

  // ---------------------------------------------------------------------
  // Where a piece of text ends up

  // ---------------------------------------------------------------------
  // What the answer promises

  /** The as-written cut keeps a prefix that ends just before the last newline. */
  lemma CutLastLineSpec(t: string)
    ensures var r := CutLastLine(t);
      |r| <= |t| && r == t[..|r|]
      && ('\n' !in t ==> r == t)
      && ('\n' in t ==> t[|r|] == '\n' && '\n' !in t[|r| + 1..])
  {
  }

  /** So an answer of three lines keeps two of them, newline included. */
  lemma CutLastLineKeepsNewline(t: string)
    requires t == "a\nb\nc"
    ensures CutLastLine(t) == "a\nb" && '\n' in CutLastLine(t)
  {
    assert t[3] == '\n' && '\n' !in t[4..];
    assert LastIndexOf(t, '\n') == 3;
  }

  /** The intended cut keeps the first line alone. */
  lemma CutFirstLineSpec(t: string)
    ensures var r := CutFirstLine(t);
      |r| <= |t| && r == t[..|r|] && '\n' !in r
      && ('\n' !in t ==> r == t)
      && ('\n' in t ==> t[|r|] == '\n')
  {
  }

  /** The prompt names the case number of every shortlisted hit. */
  lemma PromptNamesCases(query: string, hits: seq<Hit>)
    ensures forall i :: 0 <= i < |hits| ==> Contains(Prompt(query, hits), hits[i].meta.caseId)
  {
    var ctx := Join(ContextLines(hits), "\n");
    forall i | 0 <= i < |hits|
      ensures Contains(Prompt(query, hits), hits[i].meta.caseId)
    {
      JoinContains(ContextLines(hits), "\n", i);
      ContainsInContains(ctx, ContextLine(hits[i].meta), hits[i].meta.caseId);
      ContainsInContains(Prompt(query, hits), ctx, hits[i].meta.caseId);
    }
  }

  /**
   * The year template names the year, and the case number of every hit
   * whose date contains the year; when no hit does, it says so.
   */
  lemma YearTemplateSpec(year: string, hits: seq<Hit>)
    ensures Contains(YearTemplate(year, hits), year)
    ensures forall i :: 0 <= i < |hits| && Contains(hits[i].meta.date, year) ==>
      Contains(YearTemplate(year, hits), hits[i].meta.caseId)
    ensures (forall i :: 0 <= i < |hits| ==> !Contains(hits[i].meta.date, year)) ==>
      YearTemplate(year, hits) == NoCasesIn(year)
  {
    var rel := DatedIn(hits, year);
    var r := YearTemplate(year, hits);
    if rel != [] {
      var j := Join(YearOutcomes(rel), ", ");
      forall i | 0 <= i < |hits| && Contains(hits[i].meta.date, year)
        ensures Contains(r, hits[i].meta.caseId)
      {
        var h := hits[i];
        assert h in rel;
        var k :| 0 <= k < |rel| && rel[k] == h;
        var line := YearOutcomes(rel)[k];
        NamesField(line, "", h.meta.caseId, line[|h.meta.caseId|..]);
        JoinContains(YearOutcomes(rel), ", ", k);
        ContainsInContains(j, line, h.meta.caseId);
        ContainsInContains(r, j, h.meta.caseId);
      }
      assert rel[0] in rel;
      var i0 :| 0 <= i0 < |hits| && hits[i0] == rel[0];
      assert Contains(hits[i0].meta.date, year);
    } else {
      forall i | 0 <= i < |hits|
        ensures !Contains(hits[i].meta.date, year)
      {
        assert hits[i] in hits;
      }
    }
  }

  /** A query asking for the outcome of a case id gets the outcome template of the top case. */
  lemma FallbackOutcome(query: string, hits: seq<Hit>)
    requires hits != [] && ContainsCI(query, "outcome of case id")
    ensures Fallback(query, hits) == OutcomeTemplate(hits[0].meta)
    ensures Contains(Fallback(query, hits), hits[0].meta.caseId)
    ensures Contains(Fallback(query, hits), hits[0].meta.outcome)
  {
  }

  /** Otherwise a query mentioning a judge gets the judge template of the top case. */
  lemma FallbackJudge(query: string, hits: seq<Hit>)
    requires hits != [] && !ContainsCI(query, "outcome of case id") && ContainsCI(query, "judge")
    ensures Fallback(query, hits) == JudgeTemplate(hits[0].meta)
    ensures Contains(Fallback(query, hits), hits[0].meta.caseId)
    ensures Contains(Fallback(query, hits), JudgeText(hits[0].meta))
  {
  }

  /**
   * Otherwise a query with a year gets the year template for its first
   * year, which names that year and every hit decided in it.
   */
  lemma FallbackYear(query: string, hits: seq<Hit>, k: nat)
    requires hits != [] && !ContainsCI(query, "outcome of case id") && !ContainsCI(query, "judge")
    requires FirstYear(query, 0) == Some(k)
    ensures k + 4 <= |query| && Fallback(query, hits) == YearTemplate(query[k..k + 4], hits)
    ensures Contains(Fallback(query, hits), query[k..k + 4])
    ensures forall i :: 0 <= i < |hits| && Contains(hits[i].meta.date, query[k..k + 4]) ==>
      Contains(Fallback(query, hits), hits[i].meta.caseId)
  {
    FallbackIsYear(query, hits, k);
    YearTemplateSpec(query[k..k + 4], hits);
  }

  lemma FallbackIsYear(query: string, hits: seq<Hit>, k: nat)
    requires hits != [] && !ContainsCI(query, "outcome of case id") && !ContainsCI(query, "judge")
    requires FirstYear(query, 0) == Some(k) && k + 4 <= |query|
    ensures Fallback(query, hits) == YearTemplate(query[k..k + 4], hits)
  {
    FallbackIsRest(query, hits);
    YearOrGenericYear(query, hits, k);
  }

  lemma FallbackIsRest(query: string, hits: seq<Hit>)
    requires hits != [] && !ContainsCI(query, "outcome of case id") && !ContainsCI(query, "judge")
    ensures Fallback(query, hits) == YearOrGeneric(query, hits)
  {
  }

  lemma YearOrGenericYear(query: string, hits: seq<Hit>, k: nat)
    requires hits != [] && FirstYear(query, 0) == Some(k) && k + 4 <= |query|
    ensures YearOrGeneric(query, hits) == YearTemplate(query[k..k + 4], hits)
  {
  }

  /** Any other query gets the generic template of the top case. */
  lemma FallbackGeneric(query: string, hits: seq<Hit>)
    requires hits != [] && !ContainsCI(query, "outcome of case id") && !ContainsCI(query, "judge")
    requires FirstYear(query, 0).None?
    ensures Fallback(query, hits) == GenericTemplate(hits[0].meta)
    ensures Contains(Fallback(query, hits), hits[0].meta.caseId)
    ensures Contains(Fallback(query, hits), hits[0].meta.outcome)
  {
  }

  /** With an empty shortlist the answer is the apology, whatever the generator does, and it quotes the query. */
  lemma GenerateEmpty(query: string, gen: Generated)
    ensures GenerateResponse(query, [], gen) == Apology(query)
    ensures Contains(GenerateResponse(query, [], gen), query)
  {
  }

  /** When the generator raises, the answer carries its message and the top case's fields. */
  lemma GenerateFailed(query: string, hits: seq<Hit>, msg: string)
    requires hits != [] && JudgesPresent(hits)
    ensures var r := GenerateResponse(query, hits, Failed(msg));
      StartsWith(r, "I had trouble generating a response (")
      && Contains(r, msg) && Contains(r, hits[0].meta.caseId) && Contains(r, hits[0].meta.outcome)
  {
  }

  /**
   * With a shortlist and generated text, the cut reply is the answer
   * exactly when it passes the quality gate (at least 20 characters and
   * the case number of a shortlisted hit); otherwise the template answer
   * is given.
   */
  lemma GenerateGate(query: string, hits: seq<Hit>, g: string, cut: string -> string)
    requires hits != [] && JudgesPresent(hits)
    ensures var reply := Reply(g, Prompt(query, hits), cut);
      var r := Respond(query, hits, Generated(g), cut);
      && (Acceptable(reply, hits) ==>
            (r == reply && |r| >= MinAnswer && exists i :: 0 <= i < |hits| && Contains(r, hits[i].meta.caseId)))
      && (!Acceptable(reply, hits) ==> r == Fallback(query, hits))
  {
  }

  /**
   * With the intended cut, a generated answer that is kept is one line,
   * the start of the stripped text after the echoed prompt.
   */
  lemma FirstLineAnswerIsOneLine(query: string, hits: seq<Hit>, g: string)
    requires hits != [] && JudgesPresent(hits)
    requires Acceptable(Reply(g, Prompt(query, hits), CutFirstLine), hits)
    ensures var r := GenerateResponseFirstLine(query, hits, Generated(g));
      var t := Strip(Drop(g, |Prompt(query, hits)|));
      '\n' !in r && StartsWith(t, r)
  {
    CutFirstLineSpec(Strip(Drop(g, |Prompt(query, hits)|)));
  }

  /**
   * As written, a kept answer is everything of the stripped text but its
   * last line, so it keeps its earlier lines and their newlines.
   */
  lemma GeneratedAnswerAsWritten(query: string, hits: seq<Hit>, g: string)
    requires hits != [] && JudgesPresent(hits)
    requires Acceptable(Reply(g, Prompt(query, hits), CutLastLine), hits)
    ensures var r := GenerateResponse(query, hits, Generated(g));
      var t := Strip(Drop(g, |Prompt(query, hits)|));
      StartsWith(t, r) && ('\n' in t ==> t[|r|] == '\n' && '\n' !in t[|r| + 1..])
  {
    CutLastLineSpec(Strip(Drop(g, |Prompt(query, hits)|)));
  }
}

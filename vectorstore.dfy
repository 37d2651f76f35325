/**
 * The vector-store stage (vecrtor.py): the per-record fix-up and the two
 * parallel lists `create_vector_store` builds, the intent filter
 * `filter_results`, and the answer `rag_chatbot` assembles. Encoding the
 * documents and the FAISS index are not modelled: the index is only
 * taken to number the documents in the order they were appended.
 */
module VectorStore {
  import opened Wrappers
  import opened Text
  import opened SectionNorm
  import opened Extraction

  /**
   * One entry of the metadata list. `judge` is `None` when the entry has no
   * "judge" key, which the loader in app.py allows for.
   */
  datatype Meta = Meta(
    file: string,
    caseId: string,
    court: string,
    date: string,
    judge: Option<string>,
    sections: seq<string>,
    outcome: string,
    fullText: string)

  /**
   * A cleaned JSON file as the loop reads it: its name, its record, whether
   * the record has a "judge" key at all, and what the case-number pattern
   * (group 0) and the date pattern (group 1) found in its full text.
   */
  datatype Cleaned = Cleaned(
    file: string,
    data: CaseRecord,
    hasJudge: bool,
    idMatch: Option<string>,
    dateMatch: Option<string>)

  /**
   * A match of a case-number pattern begins with the first letter of one of
   * its alternatives ("Crl.MC.No.", "CRL.MC NO.", "CC", "SC", "W.P."), in
   * either case.
   */
  predicate IdMatchShape(g: Option<string>)
  {
    g.Some? ==> g.value != [] && g.value[0] in "cCsSwW"
  }

  // ---------------------------------------------------------------------
  // The per-record fix-up (vecrtor.py:43-57)

  /** A case number that the fix-up treats as missing. */
  predicate NeedsCaseId(id: string)
  {
    id == "" || id == "Unknown" || id == "CC 2015/"
  }

  /** `f"Unknown_{json_file[:10]}"` */
  function UnknownId(file: string): string
  {
    "Unknown_" + Take(file, 10)
  }

  function FixedCaseId(id: string, file: string, g: Option<string>): string
  {
    if NeedsCaseId(id) then
      match g
      case Some(x) => Strip(x)
      case None => UnknownId(file)
    else id
  }

  function FixedDate(date: string, g: Option<string>): string
  {
    match g
    case Some(d) => Upper(Strip(d))
    case None => Upper(date)
  }

  /** The alternatives of the outcome-word pattern, in the order they are tried. */
  const OutcomeWords: seq<string> := ["quashed", "granted", "dismissed", "allowed", "disposed", "rejected", "bail"]

  /** How much of an old outcome is kept when no outcome word is found. */
  const OutcomeCut: nat := 50

  /** The word `kw` occurs at `i`, ignoring case. */
  predicate WordMatchesAt(text: string, i: nat, kw: string)
  {
    i + |kw| <= |text| && Lower(text[i..i + |kw|]) == kw
  }

  /** The first alternative in `kws` that matches at `i`, ignoring case. */
  function WordAt(text: string, i: nat, kws: seq<string>): (r: Option<string>)
    ensures r.Some? ==> r.value in kws && WordMatchesAt(text, i, r.value)
    ensures r.None? ==> forall kw :: kw in kws ==> !WordMatchesAt(text, i, kw)
  {
    if kws == [] then None
    else if WordMatchesAt(text, i, kws[0]) then Some(kws[0])
    else WordAt(text, i, kws[1..])
  }

  /** Where `re.search` finds one of `kws`, searching from `i`. */
  function WordFrom(text: string, i: nat, kws: seq<string>): (k: Option<nat>)
    requires i <= |text|
    ensures k.Some? ==> i <= k.value <= |text| && WordAt(text, k.value, kws).Some?
    ensures forall j :: i <= j <= |text| && (k.None? || j < k.value) ==> WordAt(text, j, kws).None?
    decreases |text| - i
  {
    if WordAt(text, i, kws).Some? then Some(i)
    else if i == |text| then None
    else WordFrom(text, i + 1, kws)
  }

  /** `m.group(0).lower() if m else prev[:n].lower()` for a search of the alternatives `kws`. */
  function FirstWordOr(text: string, kws: seq<string>, prev: string, n: nat): string
  {
    match WordFrom(text, 0, kws)
    case Some(k) => WordAt(text, k, kws).value
    case None => Lower(Take(prev, n))
  }

  /** The matched outcome word in lower case, else the old outcome cut to 50 and lowered. */
  function FixedOutcome(text: string, outcome: string): string
  {
    FirstWordOr(text, OutcomeWords, outcome, OutcomeCut)
  }

  /** The record after the fix-up; the sections go through `normalize_sections` as written. */
  function Fixed(f: Cleaned): CaseRecord
  {
    f.data.(
      caseId := FixedCaseId(f.data.caseId, f.file, f.idMatch),
      date := FixedDate(f.data.date, f.dateMatch),
      sections := NormalizedBy(f.data.sections, NormalizeToken),
      outcome := FixedOutcome(f.data.fullText, f.data.outcome))
  }

  /** The fix-up of one record, field by field. */
  method FixRecord(f: Cleaned) returns (data: CaseRecord)
    ensures data == Fixed(f)
  {
    data := f.data;
    var fullText := data.fullText;
    if data.caseId == "" || data.caseId == "Unknown" || data.caseId == "CC 2015/" {
      match f.idMatch {
        case Some(x) => data := data.(caseId := Strip(x));
        case None => data := data.(caseId := "Unknown_" + Take(f.file, 10));
      }
    }
    match f.dateMatch {
      case Some(d) => data := data.(date := Upper(Strip(d)));
      case None => data := data.(date := Upper(data.date));
    }
    var secs := NormalizeSections(data.sections);
    data := data.(sections := secs);
    data := data.(outcome := FixedOutcome(fullText, data.outcome));
  }

  /**
   * A case number that is not missing is kept; otherwise it becomes the
   * stripped match or the "Unknown_" name. Either way it is not empty.
   */
  lemma FixedCaseIdSpec(id: string, file: string, g: Option<string>)
    requires IdMatchShape(g)
    ensures FixedCaseId(id, file, g) != ""
    ensures !NeedsCaseId(id) ==> FixedCaseId(id, file, g) == id
    ensures NeedsCaseId(id) && g.None? ==> FixedCaseId(id, file, g) == UnknownId(file)
    ensures NeedsCaseId(id) && g.None? ==> StartsWith(FixedCaseId(id, file, g), "Unknown_")
    ensures NeedsCaseId(id) && g.Some? ==> FixedCaseId(id, file, g) == Strip(g.value)
    ensures NeedsCaseId(id) && g.Some? ==> Contains(g.value, FixedCaseId(id, file, g))
  {
    if NeedsCaseId(id) {
      match g {
        case Some(x) =>
          assert !IsSpace(x[0]);
          assert Strip(x) != [];
          StripContained(x);
        case None =>
      }
    }
  }

  /** The date is upper case, and with no match it is the old date upper-cased. */
  lemma FixedDateSpec(date: string, g: Option<string>)
    ensures IsUpperCase(FixedDate(date, g))
    ensures g.None? ==> Lower(FixedDate(date, g)) == Lower(date)
  {
    match g {
      case Some(d) => UpperIsUpperCase(Strip(d));
      case None =>
        UpperIsUpperCase(date);
        LowerOfUpper(date);
    }
  }

  /**
   * With lower-case alternatives no longer than `n`, the result is lower
   * case and at most `n` long. It is the alternative that occurs first in the
   * text when one occurs anywhere, and otherwise the lowered start of `prev`.
   */
  lemma FirstWordOrSpec(text: string, kws: seq<string>, prev: string, n: nat)
    requires forall kw :: kw in kws ==> IsLowerCase(kw) && |kw| <= n
    ensures IsLowerCase(FirstWordOr(text, kws, prev, n)) && |FirstWordOr(text, kws, prev, n)| <= n
    ensures WordFrom(text, 0, kws).Some? ==>
      && FirstWordOr(text, kws, prev, n) in kws
      && ContainsCI(text, FirstWordOr(text, kws, prev, n))
      && (forall j, kw :: 0 <= j < WordFrom(text, 0, kws).value && kw in kws ==> !WordMatchesAt(text, j, kw))
    ensures WordFrom(text, 0, kws).None? ==>
      && (forall j, kw :: 0 <= j <= |text| && kw in kws ==> !WordMatchesAt(text, j, kw))
      && FirstWordOr(text, kws, prev, n) == Lower(Take(prev, n))
  {
    match WordFrom(text, 0, kws) {
      case Some(k) =>
        var w := WordAt(text, k, kws).value;
        LowerSlice(text, k, k + |w|);
        assert OccursAt(Lower(text), w, k);
        forall j, kw | 0 <= j < k && kw in kws
          ensures !WordMatchesAt(text, j, kw)
        {
          assert WordAt(text, j, kws).None?;
        }
      case None =>
        LowerIsLowerCase(Take(prev, n));
        forall j, kw | 0 <= j <= |text| && kw in kws
          ensures !WordMatchesAt(text, j, kw)
        {
          assert WordAt(text, j, kws).None?;
        }
    }
  }

  lemma OutcomeWordsShape()
    ensures forall w :: w in OutcomeWords ==> IsLowerCase(w) && |w| <= OutcomeCut
  {
  }

  /**
   * The fixed outcome is lower case and at most 50 characters long: the
   * outcome word that occurs first in the text, or the start of the old one.
   */
  lemma FixedOutcomeSpec(text: string, outcome: string)
    ensures IsLowerCase(FixedOutcome(text, outcome)) && |FixedOutcome(text, outcome)| <= OutcomeCut
    ensures WordFrom(text, 0, OutcomeWords).Some? ==>
      FixedOutcome(text, outcome) in OutcomeWords && ContainsCI(text, FixedOutcome(text, outcome))
    ensures WordFrom(text, 0, OutcomeWords).None? ==> FixedOutcome(text, outcome) == Lower(Take(outcome, OutcomeCut))
  {
    OutcomeWordsShape();
    FirstWordOrSpec(text, OutcomeWords, outcome, OutcomeCut);
  }

  // ---------------------------------------------------------------------
  // The two lists of `create_vector_store` (vecrtor.py:34-77)

  /** The text that is embedded for a record: date twice, court, sections twice, outcome twice, case number. */
  function EmbeddingText(d: CaseRecord): string
  {
    d.date + " " + d.date + " " + d.court + " "
      + Join(d.sections, " ") + " " + Join(d.sections, " ") + " "
      + d.outcome + " " + d.outcome + " " + d.caseId
  }

  /** How much of the full text the metadata keeps. */
  const SnippetLength: nat := 500

  /** The metadata entry for a fixed record; the full text is cut to 500 characters. */
  function MetaOf(file: string, d: CaseRecord): (m: Meta)
    ensures |m.fullText| <= SnippetLength
  {
    Meta(file, d.caseId, d.court, d.date, Some(d.judge), d.sections, d.outcome, Take(d.fullText, SnippetLength))
  }

  /** The files whose record has a "judge" key, in order. */
  function WithJudge(fs: seq<Cleaned>): (r: seq<Cleaned>)
    ensures |r| <= |fs|
    ensures forall f :: f in r ==> f in fs && f.hasJudge
  {
    if fs == [] then []
    else WithJudge(fs[..|fs| - 1]) + (if fs[|fs| - 1].hasJudge then [fs[|fs| - 1]] else [])
  }

  /** The document a file contributes. */
  function DocOf(f: Cleaned): string
  {
    EmbeddingText(Fixed(f))
  }

  /** The metadata entry a file contributes. */
  function EntryOf(f: Cleaned): Meta
  {
    MetaOf(f.file, Fixed(f))
  }

  /** `[f(x) for x in xs]` */
  function MapOf<T, U>(xs: seq<T>, f: T -> U): (r: seq<U>)
    ensures |r| == |xs|
  {
    if xs == [] then [] else MapOf(xs[..|xs| - 1], f) + [f(xs[|xs| - 1])]
  }

  lemma MapOfSnoc<T, U>(xs: seq<T>, f: T -> U, i: nat)
    requires i < |xs|
    ensures MapOf(xs[..i + 1], f) == MapOf(xs[..i], f) + [f(xs[i])]
  {
    assert xs[..i + 1][..i] == xs[..i];
  }

  lemma {:induction false} MapOfAt<T, U>(xs: seq<T>, f: T -> U, i: nat)
    requires i < |xs|
    ensures MapOf(xs, f)[i] == f(xs[i])
  {
    if i < |xs| - 1 {
      MapOfAt(xs[..|xs| - 1], f, i);
    }
  }

  function DocsOf(fs: seq<Cleaned>): seq<string>
  {
    MapOf(fs, DocOf)
  }

  function MetasOf(fs: seq<Cleaned>): seq<Meta>
  {
    MapOf(fs, EntryOf)
  }

  lemma WithJudgeSnoc(fs: seq<Cleaned>, i: nat)
    requires i < |fs|
    ensures WithJudge(fs[..i + 1]) == WithJudge(fs[..i]) + (if fs[i].hasJudge then [fs[i]] else [])
  {
    assert fs[..i + 1][..i] == fs[..i];
  }

  lemma PrefixSnoc<T>(fs: seq<T>, i: nat)
    requires i < |fs|
    ensures fs[..i + 1][..i] == fs[..i] && fs[..i + 1][i] == fs[i]
  {
  }

  /**
   * `create_vector_store` as written: the embedding text is appended before
   * the metadata entry is built, so a record without a "judge" key leaves a
   * document behind and no metadata entry (the KeyError is logged and the
   * loop goes on).
   */
  method CreateVectorStore(files: seq<Cleaned>) returns (documents: seq<string>, metadata: seq<Meta>)
    ensures documents == DocsOf(files)
    ensures metadata == MetasOf(WithJudge(files))
  {
    documents := [];
    metadata := [];
    var i := 0;
    while i < |files|
      invariant 0 <= i <= |files|
      invariant documents == DocsOf(files[..i])
      invariant metadata == MetasOf(WithJudge(files[..i]))
    {
      var data := FixRecord(files[i]);
      documents := documents + [EmbeddingText(data)];
      if files[i].hasJudge {
        metadata := metadata + [MetaOf(files[i].file, data)];
      }
      assert EmbeddingText(data) == DocOf(files[i]) && MetaOf(files[i].file, data) == EntryOf(files[i]);
      AppendedAsWritten(files, i);
      i := i + 1;
    }
    assert files[..i] == files;
  }

  lemma AppendedAsWritten(files: seq<Cleaned>, i: nat)
    requires i < |files|
    ensures DocsOf(files[..i + 1]) == DocsOf(files[..i]) + [DocOf(files[i])]
    ensures MetasOf(WithJudge(files[..i + 1]))
      == MetasOf(WithJudge(files[..i])) + (if files[i].hasJudge then [EntryOf(files[i])] else [])
  {
    MapOfSnoc(files, DocOf, i);
    AppendedEntries(files, i);
  }

  lemma AppendedEntries(files: seq<Cleaned>, i: nat)
    requires i < |files|
    ensures MetasOf(WithJudge(files[..i + 1]))
      == MetasOf(WithJudge(files[..i])) + (if files[i].hasJudge then [EntryOf(files[i])] else [])
    ensures DocsOf(WithJudge(files[..i + 1]))
      == DocsOf(WithJudge(files[..i])) + (if files[i].hasJudge then [DocOf(files[i])] else [])
  {
    KeptMapSnoc(files, i, DocOf);
    KeptMapSnoc(files, i, EntryOf);
  }

  lemma KeptMapSnoc<U>(files: seq<Cleaned>, i: nat, f: Cleaned -> U)
    requires i < |files|
    ensures MapOf(WithJudge(files[..i + 1]), f)
      == MapOf(WithJudge(files[..i]), f) + (if files[i].hasJudge then [f(files[i])] else [])
  {
    WithJudgeSnoc(files, i);
    var w := WithJudge(files[..i]);
    if files[i].hasJudge {
      var w' := w + [files[i]];
      assert w'[..|w|] == w && w'[..|w| + 1] == w' && w'[|w|] == files[i];
      MapOfSnoc(w', f, |w|);
      assert MapOf(w', f) == MapOf(w, f) + [f(files[i])];
    } else {
      assert WithJudge(files[..i + 1]) == w;
    }
  }

  /**
   * The corrected loop: the metadata entry is built (reading "judge") before
   * either list grows, so a record that fails adds to neither.
   */
  method CreateVectorStoreAligned(files: seq<Cleaned>) returns (documents: seq<string>, metadata: seq<Meta>)
    ensures documents == DocsOf(WithJudge(files))
    ensures metadata == MetasOf(WithJudge(files))
  {
    documents := [];
    metadata := [];
    var i := 0;
    while i < |files|
      invariant 0 <= i <= |files|
      invariant documents == DocsOf(WithJudge(files[..i]))
      invariant metadata == MetasOf(WithJudge(files[..i]))
    {
      var data := FixRecord(files[i]);
      if files[i].hasJudge {
        var meta := MetaOf(files[i].file, data);
        documents := documents + [EmbeddingText(data)];
        metadata := metadata + [meta];
      }
      assert EmbeddingText(data) == DocOf(files[i]) && MetaOf(files[i].file, data) == EntryOf(files[i]);
      AppendedEntries(files, i);
      i := i + 1;
    }
    assert files[..i] == files;
  }

  /**
   * With the corrected loop the lists have the same length and entry `i` of
   * both comes from the same file, one that has a "judge" key.
   */
  lemma AlignedLists(files: seq<Cleaned>)
    ensures |DocsOf(WithJudge(files))| == |MetasOf(WithJudge(files))|
    ensures forall i :: 0 <= i < |DocsOf(WithJudge(files))| ==>
      exists f :: (f in files && f.hasJudge
        && DocsOf(WithJudge(files))[i] == DocOf(f)
        && MetasOf(WithJudge(files))[i] == EntryOf(f))
  {
    var k := WithJudge(files);
    forall i | 0 <= i < |DocsOf(k)|
      ensures exists f :: (f in files && f.hasJudge
        && DocsOf(k)[i] == DocOf(f)
        && MetasOf(k)[i] == EntryOf(f))
    {
      MapOfAt(k, DocOf, i);
      MapOfAt(k, EntryOf, i);
      var f := k[i];
      assert f in k;
      assert f in files && f.hasJudge;
      assert DocsOf(k)[i] == DocOf(f) && MetasOf(k)[i] == EntryOf(f);
    }
  }

  /** Every file is kept exactly when every file has a "judge" key. */
  lemma {:induction false} WithJudgeAll(fs: seq<Cleaned>)
    ensures |WithJudge(fs)| == |fs| <==> forall f :: f in fs ==> f.hasJudge
  {
    if fs != [] {
      var init := fs[..|fs| - 1];
      WithJudgeAll(init);
      assert forall f :: f in fs ==> f in init || f == fs[|fs| - 1];
      assert forall f :: f in init ==> f in fs;
    }
  }

  /**
   * As written, the two lists have the same length exactly when every file
   * has a "judge" key.
   */
  lemma WrittenListsAlignIff(files: seq<Cleaned>)
    ensures |DocsOf(files)| == |MetasOf(WithJudge(files))| <==> forall f :: f in files ==> f.hasJudge
  {
    WithJudgeAll(files);
  }

  /**
   * As written, a file without a "judge" key followed by one with it leaves
   * two documents and one metadata entry, and entry 0 of the metadata
   * describes the second file while document 0 is the first file's text.
   */
  lemma WrittenListsMisaligned(a: Cleaned, b: Cleaned)
    requires !a.hasJudge && b.hasJudge
    ensures |DocsOf([a, b])| == 2 && |MetasOf(WithJudge([a, b]))| == 1
    ensures DocsOf([a, b])[0] == EmbeddingText(Fixed(a))
    ensures MetasOf(WithJudge([a, b]))[0].file == b.file
  {
    assert [a, b][..1] == [a];
    assert [a][..0] == [];
    assert WithJudge([a]) == [];
    assert WithJudge([a, b]) == [b];
    MapOfAt([b], EntryOf, 0);
    MapOfAt([a, b], DocOf, 0);
  }

  // ---------------------------------------------------------------------
  // `filter_results` (vecrtor.py:103-117)

  /** A search hit: a metadata entry and its distance to the query. */
  datatype Hit = Hit(meta: Meta, distance: real)

  /** The intents `filter_results` recognises, in the order it tests them. */
  datatype Intent = Quashed2015 | Section498A | Kerala2024 | NoIntent

  /** The first intent whose words all occur in the lower-cased query. */
  function IntentOf(query: string): Intent
  {
    var q := Lower(query);
    if Contains(q, "2015") && Contains(q, "quashed") then Quashed2015
    else if Contains(q, "section 498a") then Section498A
    else if Contains(q, "2024") && Contains(q, "high court of kerala") then Kerala2024
    else NoIntent
  }

  /** Whether a hit answers an intent. The 498A test is exact list membership. */
  predicate Answers(intent: Intent, m: Meta)
  {
    match intent
    case Quashed2015 => Contains(Lower(m.date), "2015") && Contains(Lower(m.outcome), "quash")
    case Section498A => "498A" in m.sections
    case Kerala2024 => Contains(Lower(m.date), "2024") && Contains(Lower(m.court), "high court of kerala")
    case NoIntent => false
  }

  /** The hits that answer the intent, in search order: `filtered` in `filter_results`. */
  function Answering(intent: Intent, results: seq<Hit>): seq<Hit>
  {
    Filter(results, (h: Hit) => Answers(intent, h.meta))
  }

  /** `filtered[:5] if filtered else results[:3]` */
  function FilterResults(query: string, results: seq<Hit>): seq<Hit>
  {
    var filtered := Answering(IntentOf(query), results);
    if filtered != [] then Take(filtered, 5) else Take(results, 3)
  }

  /**
   * The result keeps the order of the search results and holds at most five
   * of them, none only when there were none. When some hit answers the
   * query's intent, the result is the first five answering hits (all of
   * them when there are fewer), so every returned hit answers it and none
   * is skipped; otherwise the result is the first three hits, whatever a
   * later intent would have found.
   */
  lemma FilterResultsSpec(query: string, results: seq<Hit>)
    ensures IsSubsequence(FilterResults(query, results), results)
    ensures |FilterResults(query, results)| <= 5
    ensures FilterResults(query, results) == [] <==> results == []
    ensures (exists h :: h in results && Answers(IntentOf(query), h.meta)) ==>
      forall h :: h in FilterResults(query, results) ==> Answers(IntentOf(query), h.meta)
    ensures (exists h :: h in results && Answers(IntentOf(query), h.meta)) ==>
      FilterResults(query, results) == Take(Answering(IntentOf(query), results), 5)
    ensures (forall h :: h in results ==> !Answers(IntentOf(query), h.meta)) ==>
      FilterResults(query, results) == Take(results, 3)
  {
    var intent := IntentOf(query);
    var p := (h: Hit) => Answers(intent, h.meta);
    var filtered := Answering(intent, results);
    assert filtered == Filter(results, p);
    FilterIsSubsequence(results, p);
    if filtered != [] {
      SubsequencePrefix(filtered, results, |Take(filtered, 5)|);
      assert forall h :: h in Take(filtered, 5) ==> h in filtered;
      assert filtered[0] in filtered;
    } else {
      PrefixIsSubsequence(results, |Take(results, 3)|);
      if results != [] {
        assert results[0] in results;
      }
    }
  }

  // ---------------------------------------------------------------------
  // `rag_chatbot` (vecrtor.py:119-138)

  function NoCasesMessage(query: string): string
  {
    "No relevant cases found for '" + query + "'."
  }

  function Header(query: string): string
  {
    "Based on '" + query + "':"
  }

  /** The context line of one hit. */
  function CaseLine(m: Meta): string
  {
    "Case ID: " + m.caseId + " | Court: " + m.court + " | Date: " + m.date
      + " | Sections: " + Join(m.sections, ", ") + " | Outcome: " + m.outcome
  }

  function CaseLines(hits: seq<Hit>): (r: seq<string>)
    ensures |r| == |hits|
  {
    if hits == [] then [] else CaseLines(hits[..|hits| - 1]) + [CaseLine(hits[|hits| - 1].meta)]
  }

  function RagResponse(query: string, hits: seq<Hit>): string
  {
    if hits == [] then NoCasesMessage(query) else Header(query) + "\n" + Join(CaseLines(hits), "\n")
  }

  /** `rag_chatbot(query)` for the hits the search returned: filter, then one line per hit. */
  method RagChatbot(query: string, results: seq<Hit>) returns (response: string)
    ensures response == RagResponse(query, FilterResults(query, results))
  {
    var hits := FilterResults(query, results);
    if hits == [] {
      return NoCasesMessage(query);
    }
    var context: seq<string> := [];
    var i := 0;
    while i < |hits|
      invariant 0 <= i <= |hits|
      invariant context == CaseLines(hits[..i])
    {
      PrefixSnoc(hits, i);
      context := context + [CaseLine(hits[i].meta)];
      i := i + 1;
    }
    assert hits[..i] == hits;
    response := Header(query) + "\n" + Join(context, "\n");
  }

  lemma {:induction false} JoinLacks(parts: seq<string>, sep: string, c: char)
    requires c !in sep && forall p :: p in parts ==> c !in p
    ensures c !in Join(parts, sep)
  {
    if |parts| > 1 {
      assert forall p :: p in parts[1..] ==> p in parts;
      JoinLacks(parts[1..], sep, c);
    }
  }

  predicate OneLine(m: Meta)
  {
    && '\n' !in m.caseId && '\n' !in m.court && '\n' !in m.date && '\n' !in m.outcome
    && (forall s :: s in m.sections ==> '\n' !in s)
  }

  lemma CaseLineOneLine(m: Meta)
    requires OneLine(m)
    ensures '\n' !in CaseLine(m)
  {
    JoinLacks(m.sections, ", ", '\n');
  }

  lemma {:induction false} CaseLinesOneLine(hits: seq<Hit>)
    requires forall h :: h in hits ==> OneLine(h.meta)
    ensures forall l :: l in CaseLines(hits) ==> '\n' !in l
  {
    if hits != [] {
      var init := hits[..|hits| - 1];
      assert forall h :: h in init ==> h in hits;
      CaseLinesOneLine(init);
      CaseLineOneLine(hits[|hits| - 1].meta);
    }
  }

  lemma {:induction false} CaseLinesAt(hits: seq<Hit>, i: nat)
    requires i < |hits|
    ensures CaseLines(hits)[i] == CaseLine(hits[i].meta)
  {
    if i < |hits| - 1 {
      CaseLinesAt(hits[..|hits| - 1], i);
    }
  }

  /** The answer is the "no relevant cases" message exactly when no hit survives the filter. */
  lemma RagResponseNoCases(query: string, hits: seq<Hit>)
    ensures RagResponse(query, hits) == NoCasesMessage(query) <==> hits == []
  {
    if hits != [] {
      assert RagResponse(query, hits)[0] == 'B';
      assert NoCasesMessage(query)[0] == 'N';
    }
  }

  /** A first line, a newline, then newline-joined lines: splitting gives them all back. */
  lemma SplitAfterFirst(first: string, lines: seq<string>)
    requires lines != [] && '\n' !in first
    requires forall l :: l in lines ==> '\n' !in l
    ensures Split(first + "\n" + Join(lines, "\n"), '\n') == [first] + lines
  {
    var all := [first] + lines;
    assert all[1..] == lines;
    assert Join(all, "\n") == first + "\n" + Join(lines, "\n");
    assert forall l :: l in all ==> l == first || l in lines;
    SplitJoin(all);
  }

  lemma HeaderOneLine(query: string)
    requires '\n' !in query
    ensures '\n' !in Header(query)
  {
  }

  /**
   * When the query and the fields hold no newline, the lines of a non-empty
   * answer are the header and then one line per hit, in order.
   */
  lemma RagResponseLines(query: string, hits: seq<Hit>)
    requires hits != [] && '\n' !in query
    requires forall h :: h in hits ==> OneLine(h.meta)
    ensures Split(RagResponse(query, hits), '\n') == [Header(query)] + CaseLines(hits)
  {
    CaseLinesOneLine(hits);
    HeaderOneLine(query);
    SplitAfterFirst(Header(query), CaseLines(hits));
  }

  /** Line `i + 1` of a non-empty answer is the context line of hit `i`. */
  lemma RagResponseLineAt(query: string, hits: seq<Hit>, i: nat)
    requires hits != [] && '\n' !in query && i < |hits|
    requires forall h :: h in hits ==> OneLine(h.meta)
    ensures |Split(RagResponse(query, hits), '\n')| == |hits| + 1
    ensures Split(RagResponse(query, hits), '\n')[i + 1] == CaseLine(hits[i].meta)
  {
    RagResponseLines(query, hits);
    var lines := [Header(query)] + CaseLines(hits);
    CaseLinesAt(hits, i);
    assert lines[i + 1] == CaseLines(hits)[i];
  }
}

# Legal judgment chatbot: the deterministic core

This project models the string and list processing of a retrieval-augmented
chatbot over Kerala High Court judgments. It covers the part of the pipeline
that sits between the external services:

- **`parse_judgment_text`** turns OCR text into a case record. The model
  covers section tokenising, the party-line filter, outcome windowing and the
  fill-once merge of named entities (`Extraction`, `Sections`, `Parties`).
- **`clean_text`, `clean_names` and `preprocess_json`** (`Normalizer`,
  `Parties`, `Preprocess`).
- **`normalize_sections`**, as written and as evidently intended (`SectionNorm`).
- **From `create_vector_store`:** the per-record fix-up and the two lists it
  builds in lockstep. Also `filter_results` and `rag_chatbot` (`VectorStore`).
- **From the application:** the metadata fix-up of `load_vector_store`, on
  an array in place. Also the exact-case-number override, the nearest-three
  ranking of `query_vector_store` (`App`), and `generate_natural_response` (`Answer`).

The large regular expressions enter as their match results: group text,
start index or `Option`. These patterns are the case-number, court, date,
judge, party-block, sections-clause and outcome patterns. The small fixed
patterns are written out as matchers:

- `read\s+with.*$`, `^\d{4}$` and `^\d{4}/[A-Z]+/\d+$`;
- the query case-number pattern and `\b(20\d{2})\b`;
- the outcome-word search, `\n.*$` and `re.split(r',|\s+and\s+')`.

Three services become inputs:

- spaCy entities are a sequence of `Entity(kind, text)`.
- Index hits are a sequence of `Hit(meta, distance)` in the order the index
  returned them.
- The text generator's result is a `Generated` value: its text, or the
  message of the error it raised.

Three behaviours of the code are worth stating plainly, since the model follows them:

- The answer post-processing removes the text from the *last* newline onward
  (`re.sub(r'\n.*$', …)`), not from the first.
- On a generator error, the message shown to the user embeds the error text.
- `preprocess_json` leaves an unmatched case number empty. It has no
  synthetic fallback; only the vector-store and load fix-ups invent
  `Unknown_…`.

## Model

| member | source | states |
|---|---|---|
| Text.Strip | preprocess.py:24 | `str.strip()`: the result is a contiguous slice of the input, everything cut off either end is whitespace, and the result neither starts nor ends with whitespace |
| Text.WordsShape | ocr.py:140 | `re.split(r'\s+', part)` with empty pieces dropped: every word is non-empty and whitespace-free |
| Text.WordsOfJoin | ocr.py:140 | splitting words that were joined with single spaces gives back exactly those words, in order |
| Normalizer.WordsJoinCollapse | ocr.py:140 | the words of a string, joined with single spaces, are the string with every whitespace run made one space and both ends trimmed: the words are its whitespace-free runs, all of them, in order |
| Text.Split | preprocess.py:38 | `str.split(sep)`: there is at least one piece and no piece contains the separator |
| Text.JoinSplit | preprocess.py:38 | joining the pieces of `str.split(sep)` with the separator gives back the input |
| Text.SplitJoin | ocr.py:115 | splitting the newline-join of newline-free lines gives back exactly those lines |
| Text.LastPieceLacksSep | ocr.py:164 | the last piece of `text.split(x)` contains no occurrence of `x` |
| Text.Dedup | ocr.py:141 | `list(set(xs))`: no duplicates, exactly the elements of `xs`, no longer than `xs`, empty exactly when `xs` is |
| Text.DedupOfNoDups | ocr.py:172-173 | deduplicating a list without duplicates returns it unchanged |
| Text.KeptByMembership | preprocess.py:53-59 | a value is collected by a filter-and-extract loop exactly when some input yields it |
| Text.Filter | vecrtor.py:108 | a list comprehension with a condition keeps exactly the elements satisfying it, each as many times as it occurs in the input |
| Text.FilterIsSubsequence | vecrtor.py:108 | the comprehension keeps arrival order: its result is a subsequence of the input |
| Text.FirstWhereFirst | app.py:72 | a leftmost search stops at or before every position where the pattern matches |
| Patterns.PhraseAt | app.py:37 | a match of `word\s+word` ignoring case: the first word in lower case, at least one whitespace, then the second |
| Patterns.PhraseAtSlice | app.py:37 | a `read\s+with` match inside a piece of a token is a match in the whole token |
| Patterns.PhraseAtUpper | vecrtor.py:25-27 | upper-casing a token changes no case-insensitive match of `read\s+with` |
| Normalizer.DropNonAsciiIsAscii | preprocess.py:23 | after removing the non-ASCII characters, every character is ASCII |
| Normalizer.CollapseSpaces | preprocess.py:24 | `re.sub(r'\s+', ' ', …)` never lengthens the text and keeps a non-space first character |
| Normalizer.CollapseOnlySpaces | preprocess.py:24 | after the substitution every whitespace character left is a plain space |
| Normalizer.CollapseNoDoubleSpace | preprocess.py:24 | after the substitution no two spaces are adjacent |
| Normalizer.CollapseAscii | preprocess.py:23-24 | the substitution keeps ASCII text ASCII |
| Normalizer.CleanTextCanonical | preprocess.py:21-25 | `clean_text` output is ASCII, its only whitespace is lone spaces, and it has no space at either end |
| Normalizer.CleanTextOfCanonical | preprocess.py:21-25 | text already in that form is returned unchanged |
| Normalizer.CleanTextIdempotent | preprocess.py:21-25 | `clean_text(clean_text(s)) == clean_text(s)` |
| Normalizer.CleanTextKeepsVisible | preprocess.py:23-24 | the non-whitespace ASCII characters of the input are all kept, in order, and nothing else is visible |
| Normalizer.CleanTextOfBlank | preprocess.py:24 | an empty or all-whitespace input becomes "" |
| Sections.SplitParts | ocr.py:133 | splitting at each comma and each "and" between whitespace: at least one part, and no part contains a comma |
| Sections.SplitRejoins | ocr.py:133 | the parts, with the separators they were cut at put back between them, give back the clause; there is one separator fewer than parts, and each is a comma or whitespace, "and", whitespace |
| Sections.AllTokensAreTokens | ocr.py:130-140 | every token from every clause is either a whole stripped part containing "r/w" or "read with" (any case), or a whitespace-free word starting with a digit; none contains a comma |
| Sections.EachTokens | ocr.py:134-140 | the loop over the parts appends exactly the tokens of each part in turn |
| Sections.ClauseTokensOf | ocr.py:132-140 | the tokens of one captured clause, by the loop |
| Sections.CollectSections | ocr.py:130-141 | the sections list is the deduplicated list of all clause tokens; it has no duplicates and holds only section tokens |
| Sections.CollectedAreTokens | ocr.py:141 | the element set of the sections list is exactly the set of all tokens from all clauses |
| SectionNorm.CutStart | app.py:37 | the leftmost position where `read\s+with` matches, ignoring case; no earlier position matches |
| SectionNorm.CutLeavesNoReadWith | app.py:37 | on a one-line token, nothing after the cut matches `read\s+with` |
| SectionNorm.PlainKept | app.py:37-39 | a trimmed token in which `read\s+with.*$` matches nowhere, and that is neither a citation nor a year, is kept, upper-cased |
| SectionNorm.PlainDropped | app.py:37-38 | a trimmed token in which `read\s+with.*$` matches nowhere, and that has the citation shape, is dropped |
| SectionNorm.NormalizeTokenNeverYear | app.py:38-39 | as written, no kept token is a bare four-digit year, and every kept token is upper case |
| SectionNorm.NormalizeTokenKeepsCitation | app.py:38-39 | as written, "2015/abc/12" is kept as "2015/ABC/12", which has the citation shape and is dropped on a second pass |
| SectionNorm.NormalizeSectionsNotIdempotent | app.py:34-40 | as written, normalising ["2015/abc/12"] gives ["2015/ABC/12"], and normalising that gives [] |
| SectionNorm.CanonicalTokenDropsCitation | app.py:38 | with the shapes checked after upper-casing, both "2015/abc/12" and "2015/ABC/12" are dropped |
| SectionNorm.CanonicalTokenFixed | app.py:37-39 | corrected, a kept one-line token has no "read with" and is kept unchanged by a second pass |
| SectionNorm.NormalizedFacts | vecrtor.py:22-28 | corrected, the output has no duplicates and is no longer than the input; every element is upper case, not a year and not a citation; an element is in the output exactly when some input token normalises to it |
| SectionNorm.NormalizeWith | vecrtor.py:23-28 | the loop that adds each normalised token to a set, for any per-token normaliser, computes the deduplicated kept tokens |
| SectionNorm.NormalizedAsWrittenFacts | vecrtor.py:22-28 | as written, the output has no duplicates and is no longer than the input; every element is upper case and not a year; an element is in the output exactly when some input token normalises to it |
| SectionNorm.NormalizeTokenOneLine | vecrtor.py:25 | as written, a kept one-line token contains no `read\s+with` match and no newline |
| SectionNorm.NormalizedOneLine | vecrtor.py:22-28 | as written, from one-line tokens no output element contains a `read\s+with` match |
| SectionNorm.NormalizeSections | vecrtor.py:22-28 | as written, the loop that adds each normalised token to the set computes the as-written output: no duplicates, no longer than the input, upper case, no year |
| SectionNorm.NormalizeSectionsCorrected | vecrtor.py:22-28 | corrected, the same loop computes the corrected output: no duplicates, no longer than the input, upper case, neither a year nor a citation |
| SectionNorm.NormalizedIdempotent | app.py:34-40 | corrected, normalising one-line tokens twice equals normalising once |
| Parties.KeptLinesMembership | ocr.py:115 | a line is kept exactly when some line of the block, stripped, equals it and is non-empty and not an advocate's line |
| Parties.KeptLinesShape | ocr.py:115 | every kept line is non-empty, stripped, and starts with none of "BY ADV", "SRI.", "SMT." in any case |
| Parties.KeptLinesEmpty | ocr.py:115-116 | no line is kept exactly when every line is blank or an advocate's line |
| Parties.PartyLinesChoice | ocr.py:114-116 | the party list is the kept lines when some line survives, else the whole stripped block |
| Parties.PartyLinesSpec | ocr.py:114-125 | the party list is never empty; it is either exactly the surviving lines, each stripped and marker-free, or the single stripped block, markers and all |
| Parties.NameStart | preprocess.py:57 | the leftmost position of a letter followed by a name character, where `[A-Z][A-Za-z\s.-]+` can start |
| Parties.NameRunEnd | preprocess.py:57 | the greedy run of `[A-Za-z\s.-]` from a position: every character in it is a name character, and the character after it, if any, is not |
| Parties.PartyNameOfRun | preprocess.py:57-59 | the stripped run from a letter is non-empty, starts with a letter, is made of name characters, is trimmed, occurs in the entry and carries no marker |
| Parties.NameOfCleanSpec | preprocess.py:55-59 | every name kept from one cleaned entry is such a party name of that entry |
| Parties.CleanName | preprocess.py:54-59 | the loop body keeps the name extracted from the cleaned entry, or nothing |
| Parties.CleanNames | preprocess.py:51-60 | the result is the deduplicated list of the kept names: no duplicates, no longer than the input, and a name is in it exactly when some entry yields it |
| Parties.CleanNamesSpec | preprocess.py:51-60 | every returned name lies inside the cleaned text of some input entry, starts with a letter, is trimmed, and that entry carries none of the nine markers |
| Extraction.PrimaryOutcomeSpec | ocr.py:148-150 | the primary outcome is at most 200 characters and occurs in the text within the 200-character window from the clause start |
| Extraction.KeywordsAreWords | ocr.py:153 | every disposition keyword of the fallback pattern is a non-empty run of lower-case letters |
| Extraction.FallbackOutcomeSpec | ocr.py:153-155 | the fallback outcome has no newline and ends with a disposition keyword, in any case; its length is between the keyword's and 200 plus the keyword's |
| Extraction.FirstTextSpec | ocr.py:160-163 | the text of the first matching entity is "" exactly when no entity matches, and otherwise belongs to a matching entity |
| Extraction.StepFields | ocr.py:160-169 | one entity sets court, date or judge exactly when that field is empty and the entity fits it; it is appended to the petitioners exactly when it is a PERSON followed by "petitioner" and not taken as judge, and to the respondents exactly when it is followed by "respondent", not by "petitioner", and not taken as judge; no two of judge, petitioner and respondent happen together; nothing else changes |
| Extraction.MergeCourt | ocr.py:160-161 | after the merge the court is the old one when non-empty, else the first ORG entity mentioning "court" |
| Extraction.MergeDate | ocr.py:162-163 | after the merge the date is the old one when non-empty, else the first DATE entity |
| Extraction.MergeJudge | ocr.py:164-165 | after the merge the judge is the old one when non-empty, else the first PERSON entity followed by "judge" |
| Extraction.MergeKeepsRest | ocr.py:159-169 | the merge changes neither case number, sections, outcome nor full text |
| Extraction.PartyTextsSpec | ocr.py:166-169 | a text is a party candidate exactly when some PERSON entity with that text is followed by the role word |
| Extraction.FirstIndex | ocr.py:164-165 | the position of the first entity that fits a test, with none before it, or the length when none fits |
| Extraction.WithoutFirstSpec | ocr.py:164-165 | taking out the first fitting entity removes exactly that one, and leaves the list alone when none fits |
| Extraction.MergeGrowsPetitioners | ocr.py:164-167 | after the loop the petitioners are the old ones followed by every PERSON entity followed by "petitioner", in order, except the first judge candidate while the judge field was empty; with a judge already set, all of them |
| Extraction.MergeGrowsRespondents | ocr.py:164-169 | after the loop the respondents are the old ones followed by every PERSON entity followed by "respondent" but not by "petitioner", in order, with the same judge exception |
| Extraction.MergeEntities | ocr.py:159-169 | the entity loop computes the merge |
| Extraction.ParseJudgmentText | ocr.py:81-180 | the function builds the record defined field by field from the matches and the entities |
| Extraction.ParsedSpec | ocr.py:82-173 | the record keeps the input as full text; an unmatched case number is ""; court, date and judge come from the pattern or else from the first fitting entity; the outcome is the windowed or fallback one; sections, petitioners and respondents have no duplicates, and sections are section tokens |
| Extraction.ParsedParties | ocr.py:111-173 | the returned party lists are the lines of the party block followed by the qualifying entities in order, without the first judge candidate when no judge was matched, deduplicated |
| Extraction.ParsedCourtFromEntity | ocr.py:160-161 | a court taken from an entity is "" or contains "court", ignoring case |
| Preprocess.GatherSections | preprocess.py:68-78 | the sections loop yields the deduplicated tokens, or the old sections when there are none |
| Preprocess.PreprocessJson | preprocess.py:27-88 | the function builds the record defined field by field |
| Preprocess.PreprocessCaseId | preprocess.py:31-34 | a non-empty case number is kept; an empty one becomes the stripped match, or stays "" without one |
| Preprocess.PreprocessCourt | preprocess.py:37-38 | without a match the court becomes the stripped text of the old court up to its first newline, and has no newline |
| Preprocess.PreprocessSections | preprocess.py:65-78 | with no token the old sections stay; otherwise the new list is non-empty, has no duplicates, holds exactly the tokens found, and only section tokens |
| Preprocess.CourtFirstLine | preprocess.py:38 | the stripped first line of the old court has no newline and is the stripped text before the first newline |
| Preprocess.PreprocessOutcome | preprocess.py:80-83 | without a match the outcome stays; with one it is a prefix of the stripped clause of at most 200 characters, the whole clause when that fits |
| Preprocess.PreprocessFullText | preprocess.py:86 | the full text is cleaned: canonical, keeps the visible characters, and a second preprocessing leaves it unchanged |
| Preprocess.PreprocessParties | preprocess.py:51-63 | both party lists have no duplicates, and each name is a party name inside the cleaned text of a marker-free input entry |
| VectorStore.FixRecord | vecrtor.py:43-57 | the per-record fix-up computes the fixed case number, date and outcome, and the sections through `normalize_sections` as written |
| VectorStore.FixedCaseIdSpec | vecrtor.py:44-46 | the fixed case number is non-empty; one that is not "", "Unknown" or "CC 2015/" is kept; otherwise it is the stripped match, which lies within the match, or without one `Unknown_` plus the file name's first 10 characters |
| VectorStore.FixedDateSpec | vecrtor.py:49-50 | the fixed date is upper case; without a match it is the old date in upper case |
| VectorStore.WordFrom | vecrtor.py:56 | `re.search` over the alternatives: the leftmost position where one of them matches, ignoring case |
| VectorStore.FirstWordOrSpec | vecrtor.py:56-57 | with a match the result is the matched alternative, found in the text ignoring case, with no match earlier; without one it is the old value cut and lowered |
| VectorStore.OutcomeWordsShape | vecrtor.py:56 | every outcome word is lower case and at most 50 characters long |
| VectorStore.FixedOutcomeSpec | vecrtor.py:56-57 | the fixed outcome is lower case and at most 50 characters: an outcome word found in the text, else the old outcome cut to 50 and lowered |
| VectorStore.MetaOf | vecrtor.py:68-77 | the stored full-text snippet has at most 500 characters |
| VectorStore.CreateVectorStore | vecrtor.py:34-79 | as written, every record adds an embedding text, but only records with a judge add a metadata entry, because a missing key raises between the two appends |
| VectorStore.AppendedAsWritten | vecrtor.py:67-77 | one record adds its text to the documents, and its entry to the metadata only when it has a judge |
| VectorStore.WithJudgeAll | vecrtor.py:73 | no record is lost to the missing-key error exactly when every record has a judge |
| VectorStore.WrittenListsAlignIff | vecrtor.py:34-79 | as written, the two lists have equal length exactly when every record has a judge |
| VectorStore.WrittenListsMisaligned | vecrtor.py:67-73 | as written, a record without a judge followed by one with a judge leaves two documents and one metadata entry; entry 0 belongs to the second file, while document 0 belongs to the first |
| VectorStore.CreateVectorStoreAligned | vecrtor.py:34-79 | corrected, both lists are built from the same records with a judge |
| VectorStore.AlignedLists | vecrtor.py:34-79 | corrected, the lists have equal length, and entry i of each comes from the same input record |
| VectorStore.FilterResultsSpec | vecrtor.py:103-117 | the result keeps arrival order, holds at most 5 hits, and is empty only when the results are; when some hit answers the query's first intent, the result is the first min(5, k) of the k answering hits, in order, none skipped; otherwise it is the first three results |
| VectorStore.CaseLinesAt | vecrtor.py:126-135 | context line i is the line of result i |
| VectorStore.CaseLineOneLine | vecrtor.py:128-134 | the context line of a newline-free entry has no newline |
| VectorStore.RagChatbot | vecrtor.py:119-138 | the answer is computed from the filtered results |
| VectorStore.RagResponseNoCases | vecrtor.py:123-124 | the answer is the "No relevant cases found" message exactly when nothing was filtered |
| VectorStore.RagResponseLines | vecrtor.py:126-137 | the answer's lines are the header followed by one context line per result, in order |
| VectorStore.RagResponseLineAt | vecrtor.py:126-137 | the answer has one line more than there are results, and line i + 1 is the line of result i |
| App.FixEntry | app.py:48-54 | the loop body for one entry computes the fixed entry |
| App.FixedAllAt | app.py:47-54 | entry i of the fixed list is entry i fixed against what was found in its own text |
| App.LoadFixUp | app.py:47-54 | the loop rewrites the metadata array in place to every entry fixed |
| App.FixedMetaSpec | app.py:47-54 | after the fix-up the case number is non-empty and a judge is present; an entry whose case number is non-empty and does not start with "Unknown" keeps it; otherwise it is the stripped match, or `Unknown_` plus the file name's first 10 characters without one; an existing judge stays, a missing one becomes the match or "Not specified"; no other field changes |
| App.FixedMetaIdempotent | app.py:47-54 | fixing an entry twice gives the same entry as fixing it once |
| App.QueryIdEnd | app.py:72 | a match of the query case-number pattern at a position starts with "crl.mc", ignoring case, and ends with a digit |
| App.QueryIdFromFirst | app.py:72 | the search for that pattern stops at or before every position where it matches |
| App.QueryIdSpec | app.py:72 | a found case number occurs in the query, starts with "crl.mc" in some case and ends with a digit; when none is found, the pattern matches nowhere |
| App.FoundId | app.py:72-74 | the text matched at a position is part of the query, longer than six characters, starts with "crl.mc" in some case and ends with a digit |
| App.RemoveSpaces | app.py:74-75 | `replace(" ", "")`: no space is left, the result is no longer, and every other character is kept as many times as it occurs |
| App.RemoveSpacesKeepsOrder | app.py:74-75 | the kept characters stay in their order: the result is a subsequence of the input |
| App.FirstNaming | app.py:75-78 | the first hit whose normalised case number equals the query's; none before it has one |
| App.Insert | app.py:81 | insertion into the sorted list adds exactly the one hit |
| App.SortByDistanceSorted | app.py:81 | the sort orders hits by ascending distance, that is by descending similarity `1 - d/2` |
| App.SortByDistancePermutes | app.py:81 | the sort is a permutation of the hits |
| App.SortByDistanceStable | app.py:81 | the sort is stable: hits at equal distance keep their arrival order |
| App.SortByDistanceSpec | app.py:81 | sorted, a permutation, and stable |
| App.SplitSorted | app.py:81 | cutting a sorted list keeps the front sorted, and every hit cut off is at least as far as every hit kept |
| App.RankExact | app.py:72-78 | when the query names a case number that some hit carries, the ranking is exactly the first such hit in arrival order |
| App.RankNearest | app.py:80-81 | otherwise the ranking is the first min(3, n) of the stable sort by distance: sorted, and every hit left out is at least as far as every hit kept |
| App.RankSize | app.py:63-81 | the ranking holds at most three hits, all from the search, and is empty only when the search returned nothing |
| Answer.Apology | app.py:84-85 | the apology opens with "Sorry, I couldn’t find any details for '" and quotes the query |
| Answer.ContextLine | app.py:89 | a context line names the hit's case number |
| Answer.ContextLines | app.py:88-91 | one context line per hit, in order |
| Answer.Prompt | app.py:94-102 | the prompt starts with the instructions, ends with "Response:", and contains the query and the joined context |
| Answer.PromptNamesCases | app.py:88-102 | the prompt names the case number of every shortlisted hit |
| Answer.LastIndexOf | app.py:107 | the position of the last newline: it is a newline and no newline follows it |
| Answer.CutLastLineSpec | app.py:107 | as written, the cut keeps a prefix ending just before the last newline, and keeps newline-free text whole |
| Answer.CutLastLineKeepsNewline | app.py:107 | as written, "a\nb\nc" becomes "a\nb", which still holds a newline |
| Answer.CutFirstLineSpec | app.py:107 | corrected, the cut keeps the prefix before the first newline, which has no newline |
| Answer.FirstYear | app.py:116 | `\b(20\d{2})\b`: the leftmost position of "20" and two digits with a word boundary on each side |
| Answer.OutcomeTemplate | app.py:113 | the outcome template opens with "The outcome of " and names the case number, the outcome and the judge |
| Answer.JudgeTemplate | app.py:115 | the judge template opens with "The judge for " and names the case number and the judge |
| Answer.YearOutcomes | app.py:121 | one "case was outcome by judge" entry per relevant hit, in order |
| Answer.NoCasesIn | app.py:123 | the message opens with "I couldn’t find cases from " and names the year |
| Answer.YearTemplate | app.py:119-123 | the year answer names the year, and with relevant hits it contains their joined "case was outcome by judge" entries |
| Answer.YearTemplateSpec | app.py:116-123 | the year answer names the year and the case number of every hit whose date contains it; when no hit's date does, it is the "couldn't find cases from" message |
| Answer.GenericTemplate | app.py:124 | the generic template opens with "For " and names the case number, the outcome and the judge |
| Answer.FallbackOutcome | app.py:112-113 | a query asking for the "outcome of case id" gets the outcome template, which names the top case number and its outcome |
| Answer.FallbackJudge | app.py:114-115 | otherwise a query mentioning "judge" gets the judge template, which names the top case number and its judge |
| Answer.FallbackYear | app.py:116-123 | otherwise a query with a year gets the year template for its first year, which names that year and the case number of every hit dated in it |
| Answer.FallbackGeneric | app.py:124 | any other query gets the generic template, which names the top case number and its outcome |
| Answer.Trouble | app.py:126-128 | the error answer starts with "I had trouble generating a response (" and contains the error message, the top case number and its outcome |
| Answer.GenerateEmpty | app.py:84-85 | with an empty shortlist the answer is the apology, whatever the generator does |
| Answer.GenerateFailed | app.py:126-128 | when the generator raises, the answer embeds its message and the top case's fields |
| Answer.GenerateGate | app.py:105-125 | the cut reply is the answer exactly when it has at least 20 characters and names a shortlisted case number; otherwise the template answer is given |
| Answer.GeneratedAnswerAsWritten | app.py:106-110 | as written, a kept answer is the stripped text after the echoed prompt, less its last line, so it can hold earlier lines |
| Answer.FirstLineAnswerIsOneLine | app.py:106-110 | corrected, a kept answer is one line, the start of the stripped text after the echoed prompt |

## Left out

- PDF rasterisation, image preprocessing, Tesseract, file and folder loops, and JSON reading and writing are I/O. Each record arrives as a value.
- spaCy, the sentence encoder, the FAISS index and the text generator are foreign models. Their outputs are parameters: entities, hits in index order, and generated text or an error message.
- The large regular expressions are not modelled; their match results are parameters. These are the case-number, court, date, judge, party-block, sections-clause and outcome patterns.
- Character classes are ASCII approximations. `\s` is ASCII whitespace including `\x1c`-`\x1f`, `\d` is `0`-`9`, `\w` (and so the `\b` boundary in Text.IsWordChar and Answer.FirstYear) is an ASCII letter, digit or `_`, and case-insensitive matching, `lower()` and `upper()` act on ASCII letters only.
- `list(set(xs))` is modelled as first-occurrence deduplication. Python's set iteration order is not modelled; only membership and the absence of duplicates are stated.
- The similarity `1 - dist/2` is not computed. Distances are reals and ranking is by ascending distance, which is the same order without float32 rounding.
- Missing dictionary keys are modelled only where the behaviour depends on them: the metadata `judge`, and the misalignment in `create_vector_store`. Other records are typed with every field present.
- Answer.GenerateResponse and the other answer functions require every shortlisted entry to have a judge. The load fix-up guarantees this (App.FixedMetaSpec). A missing judge would raise a `KeyError` that escapes the handler; this case is not modelled.
- Extraction.FirstTextSpec, Extraction.MergeCourt, Extraction.MergeDate and Extraction.MergeJudge assume non-empty entity texts. spaCy never yields an empty entity; an empty text would leave a field empty that the statements call filled.
- SectionNorm.NormalizedIdempotent and SectionNorm.CanonicalTokenFixed hold for one-line tokens only. With a newline in a token, `.*$` stops at the newline, and even the corrected normaliser need not be idempotent.
- `normalize_sections` in app.py:34-40 is the same function as vecrtor.py:22-28. `SectionNorm` models both.
- The Streamlit interface, session state, logging and the sample-query driver are left out.

## Findings

| source | as written | input that shows it | evidently intended | confidence | as-written member | corrected member |
|---|---|---|---|---|---|---|
| app.py:38-39 (also vecrtor.py:26-27) | the year and citation shapes are checked before upper-casing | `["2015/abc/12"]` gives `["2015/ABC/12"]`, a citation; a second pass drops it | check the shapes on the upper-cased token, so no citation survives and the normaliser is idempotent | not executed | SectionNorm.NormalizeTokenKeepsCitation, SectionNorm.NormalizeSections, SectionNorm.NormalizeSectionsNotIdempotent | SectionNorm.CanonicalTokenDropsCitation, SectionNorm.NormalizedFacts, SectionNorm.NormalizeSectionsCorrected, SectionNorm.NormalizedIdempotent |
| vecrtor.py:67-73 | `documents.append` runs before the metadata dict reads `data['judge']` | a record without `judge`, then a record with one: two documents, one metadata entry | build both entries before appending either, so the lists stay aligned position by position | not executed | VectorStore.CreateVectorStore, VectorStore.WrittenListsMisaligned | VectorStore.CreateVectorStoreAligned, VectorStore.AlignedLists |
| app.py:107 | `re.sub(r'\n.*$', '', response)` removes only the last line | generated text "a\nb\nc" after the prompt gives "a\nb" | keep the first line only | not executed | Answer.CutLastLineKeepsNewline, Answer.GeneratedAnswerAsWritten | Answer.CutFirstLineSpec, Answer.FirstLineAnswerIsOneLine |

/**
 * The retrieval side of the chatbot (app.py): the fix-up `load_vector_store`
 * applies to every metadata entry, the case number a query may name, and
 * the ranking `query_vector_store` applies to the hits of the index search.
 * The index search itself is not modelled: its hits arrive as a list of
 * `Hit`, in the order the index returned them.
 */
module App {
  import opened Wrappers
  import opened Text
  import opened Patterns
  import opened VectorStore

  // ---------------------------------------------------------------------
  // The load fix-up (app.py:47-54)

  /**
   * What the patterns found in one entry's full text: group 0 of the
   * case-number pattern and group 0 of the judge pattern.
   */
  datatype Found = Found(idMatch: Option<string>, judgeMatch: Option<string>)

  /** An entry whose case number is missing or a placeholder is looked at again. */
  predicate NeedsId(id: string)
  {
    id == "" || StartsWith(id, "Unknown")
  }

  /** The entry after the fix-up: a case number for a placeholder, a judge where the key is absent. */
  function FixedMeta(m: Meta, f: Found): Meta
  {
    var id := if NeedsId(m.caseId) then
        (match f.idMatch case Some(x) => Strip(x) case None => UnknownId(m.file))
      else m.caseId;
    var judge := if m.judge.None? then
        Some(match f.judgeMatch case Some(j) => j case None => "Not specified")
      else m.judge;
    m.(caseId := id, judge := judge)
  }

  /** The body of the loop of `load_vector_store`, for one entry. */
  method FixEntry(m: Meta, f: Found) returns (meta: Meta)
    ensures meta == FixedMeta(m, f)
  {
    meta := m;
    if meta.caseId == "" || StartsWith(meta.caseId, "Unknown") {
      match f.idMatch {
        case Some(x) => meta := meta.(caseId := Strip(x));
        case None => meta := meta.(caseId := "Unknown_" + Take(meta.file, 10));
      }
    }
    if meta.judge.None? {
      match f.judgeMatch {
        case Some(j) => meta := meta.(judge := Some(j));
        case None => meta := meta.(judge := Some("Not specified"));
      }
    }
  }

  /** Every entry fixed up against what was found in its own text. */
  function FixedAll(ms: seq<Meta>, fs: seq<Found>): (r: seq<Meta>)
    requires |ms| == |fs|
    ensures |r| == |ms|
  {
    if ms == [] then [] else FixedAll(ms[..|ms| - 1], fs[..|fs| - 1]) + [FixedMeta(ms[|ms| - 1], fs[|fs| - 1])]
  }

  lemma FixedAllSnoc(ms: seq<Meta>, fs: seq<Found>, i: nat)
    requires |ms| == |fs| && i < |ms|
    ensures FixedAll(ms[..i + 1], fs[..i + 1]) == FixedAll(ms[..i], fs[..i]) + [FixedMeta(ms[i], fs[i])]
  {
    assert ms[..i + 1][..i] == ms[..i];
    assert fs[..i + 1][..i] == fs[..i];
  }

  /** Entry `i` of the fixed-up list is entry `i` fixed up. */
  lemma {:induction false} FixedAllAt(ms: seq<Meta>, fs: seq<Found>, i: nat)
    requires |ms| == |fs| && i < |ms|
    ensures FixedAll(ms, fs)[i] == FixedMeta(ms[i], fs[i])
  {
    if i < |ms| - 1 {
      FixedAllAt(ms[..|ms| - 1], fs[..|fs| - 1], i);
    }
  }

  /** The loop of `load_vector_store` over the metadata, changing each entry in place. */
  method LoadFixUp(metadata: array<Meta>, found: seq<Found>)
    requires metadata.Length == |found|
    modifies metadata
    ensures metadata[..] == FixedAll(old(metadata[..]), found)
  {
    ghost var before := metadata[..];
    var i := 0;
    while i < metadata.Length
      invariant 0 <= i <= metadata.Length
      invariant metadata[..i] == FixedAll(before[..i], found[..i])
      invariant metadata[i..] == before[i..]
    {
      FixedAllSnoc(before, found, i);
      ghost var done := metadata[..i];
      assert metadata[i] == before[i];
      var meta := FixEntry(metadata[i], found[i]);
      metadata[i] := meta;
      assert metadata[..i + 1] == done + [meta];
      assert metadata[i + 1..] == before[i + 1..];
      i := i + 1;
    }
    assert before[..i] == before && found[..i] == found;
  }

  /**
   * After the fix-up the case number is not empty and the judge is present.
   * An entry with a real case number keeps it; a placeholder becomes the
   * stripped match or the "Unknown_" name. A judge already there is kept, a
   * missing one becomes the judge match or "Not specified", and no other
   * field changes.
   */
  lemma FixedMetaSpec(m: Meta, f: Found)
    requires IdMatchShape(f.idMatch)
    ensures FixedMeta(m, f).caseId != "" && FixedMeta(m, f).judge.Some?
    ensures !NeedsId(m.caseId) ==> FixedMeta(m, f).caseId == m.caseId
    ensures NeedsId(m.caseId) && f.idMatch.None? ==> FixedMeta(m, f).caseId == UnknownId(m.file)
    ensures NeedsId(m.caseId) && f.idMatch.Some? ==> FixedMeta(m, f).caseId == Strip(f.idMatch.value)
    ensures NeedsId(m.caseId) && f.idMatch.Some? ==> Contains(f.idMatch.value, FixedMeta(m, f).caseId)
    ensures m.judge.Some? ==> FixedMeta(m, f).judge == m.judge
    ensures m.judge.None? && f.judgeMatch.Some? ==> FixedMeta(m, f).judge == f.judgeMatch
    ensures m.judge.None? && f.judgeMatch.None? ==> FixedMeta(m, f).judge == Some("Not specified")
    ensures var r := FixedMeta(m, f);
      r.file == m.file && r.court == m.court && r.date == m.date
      && r.sections == m.sections && r.outcome == m.outcome && r.fullText == m.fullText
  {
    if NeedsId(m.caseId) && f.idMatch.Some? {
      var x := f.idMatch.value;
      assert !IsSpace(x[0]);
      StripContained(x);
    }
  }

  lemma StripStartsWithLetter(x: string)
    requires x != [] && x[0] in "cCsSwW"
    ensures Strip(x) != [] && Strip(x)[0] == x[0]
  {
    assert !IsSpace(x[0]);
  }

  /** Loading twice changes nothing more than loading once. */
  lemma FixedMetaIdempotent(m: Meta, f: Found)
    requires IdMatchShape(f.idMatch)
    ensures FixedMeta(FixedMeta(m, f), f) == FixedMeta(m, f)
  {
    var r := FixedMeta(m, f);
    if NeedsId(m.caseId) {
      match f.idMatch {
        case Some(x) =>
          StripStartsWithLetter(x);
          assert !StartsWith(r.caseId, "Unknown");
        case None =>
          assert r.caseId == UnknownId(m.file);
          assert r.caseId[..7] == "Unknown";
      }
    }
  }

  // ---------------------------------------------------------------------
  // The case number a query names (app.py:72-74)

  /** Where a run of ASCII digits that starts at `i` ends. */
  function DigitRunEnd(s: string, i: nat): (j: nat)
    requires i <= |s|
    ensures i <= j <= |s|
    ensures forall k :: i <= k < j ==> IsDigit(s[k])
    ensures j < |s| ==> !IsDigit(s[j])
    decreases |s| - i
  {
    if i < |s| && IsDigit(s[i]) then DigitRunEnd(s, i + 1) else i
  }

  /** `t` occurs at `i`, ignoring case. */
  predicate MatchesCI(s: string, i: nat, t: string)
  {
    i + |t| <= |s| && Lower(s[i..i + |t|]) == t
  }

  lemma MatchesCIPrefix(s: string, i: nat, t: string, n: nat)
    requires MatchesCI(s, i, t) && n <= |t|
    ensures MatchesCI(s, i, t[..n])
  {
    assert s[i..i + n] == s[i..i + |t|][..n];
  }

  /** The end of `Crl\.MC\.No\.|CRL\.MC\s+NO\.` matched at `i`, ignoring case. */
  function QueryPrefixEnd(q: string, i: nat): (e: Option<nat>)
    requires i <= |q|
    ensures e.Some? ==> i < e.value <= |q| && MatchesCI(q, i, "crl.mc")
  {
    if MatchesCI(q, i, "crl.mc.no.") then
      MatchesCIPrefix(q, i, "crl.mc.no.", 6);
      assert "crl.mc.no."[..6] == "crl.mc";
      Some(i + 10)
    else if MatchesCI(q, i, "crl.mc") && i + 6 < |q| && IsSpace(q[i + 6]) then
      var j := SpaceRunEnd(q, i + 6);
      if MatchesCI(q, j, "no.") then Some(j + 3) else None
    else None
  }

  /**
   * The end of a match of the whole query pattern at `i`: the prefix, then
   * spaces, digits, spaces, "of", spaces and digits. Every run is taken
   * whole, as the greedy pattern does; no shorter run could let the rest
   * match.
   */
  function QueryIdEnd(q: string, i: nat): (e: Option<nat>)
    requires i <= |q|
    ensures e.Some? ==> i < e.value <= |q| && MatchesCI(q, i, "crl.mc") && IsDigit(q[e.value - 1])
  {
    match QueryPrefixEnd(q, i)
    case None => None
    case Some(a) =>
      var b := SpaceRunEnd(q, a);
      var c := DigitRunEnd(q, b);
      if c == b then None
      else
        var d := SpaceRunEnd(q, c);
        if !MatchesCI(q, d, "of") then None
        else
          var e := SpaceRunEnd(q, d + 2);
          var f := DigitRunEnd(q, e);
          if f == e then None else Some(f)
  }

  /** Whether the query pattern matches at a position. */
  function MatchesQueryId(q: string): nat -> bool
  {
    (j: nat) => j <= |q| && QueryIdEnd(q, j).Some?
  }

  /** `re.search`: the first position where the query pattern matches. */
  function QueryIdFrom(q: string): (k: Option<nat>)
    ensures k.Some? ==> k.value <= |q| && QueryIdEnd(q, k.value).Some?
  {
    FirstWhere(|q|, 0, MatchesQueryId(q))
  }

  /** The search finds the first match: whenever the pattern matches at `j`, it stops at `j` or before. */
  lemma QueryIdFromFirst(q: string, j: nat)
    requires j <= |q| && QueryIdEnd(q, j).Some?
    ensures QueryIdFrom(q).Some? && QueryIdFrom(q).value <= j
  {
    FirstWhereFirst(|q|, 0, MatchesQueryId(q), j);
  }

  /** `case_id_match.group(0)`, or nothing when the query names no case number. */
  function QueryId(q: string): Option<string>
  {
    match QueryIdFrom(q)
    case None => None
    case Some(k) => Some(q[k..QueryIdEnd(q, k).value])
  }

  /** `s.replace(" ", "")`: only the space character goes. */
  function RemoveSpaces(s: string): (r: string)
    ensures ' ' !in r && |r| <= |s|
    ensures forall c :: c != ' ' ==> multiset(r)[c] == multiset(s)[c]
  {
    if s == [] then []
    else
      assert s == [s[0]] + s[1..];
      (if s[0] == ' ' then [] else [s[0]]) + RemoveSpaces(s[1..])
  }

  /** The characters that are kept stay in their order. */
  lemma {:induction false} RemoveSpacesKeepsOrder(s: string)
    ensures IsSubsequence(RemoveSpaces(s), s)
  {
    if s != [] {
      RemoveSpacesKeepsOrder(s[1..]);
      var r := RemoveSpaces(s);
      if s[0] != ' ' {
        assert r[0] == s[0] && r[1..] == RemoveSpaces(s[1..]);
      } else {
        assert r == RemoveSpaces(s[1..]);
        SubsequenceSkip(r, s[1..], s[0]);
        assert [s[0]] + s[1..] == s;
      }
    }
  }

  /** The form in which case numbers are compared: upper case, no spaces. */
  function NormId(s: string): string
  {
    RemoveSpaces(Upper(s))
  }

  /**
   * A case number found in a query starts with "crl.mc" in some case, ends
   * with a digit, and comes from the first position where the pattern
   * matches.
   */
  lemma QueryIdSpec(q: string)
    ensures QueryId(q).Some? ==>
      && Contains(q, QueryId(q).value)
      && |QueryId(q).value| > 6 && Lower(QueryId(q).value[..6]) == "crl.mc"
      && IsDigit(QueryId(q).value[|QueryId(q).value| - 1])
    ensures QueryId(q).None? ==> forall j :: 0 <= j <= |q| ==> QueryIdEnd(q, j).None?
  {
    match QueryIdFrom(q) {
      case None =>
        forall j | 0 <= j <= |q|
          ensures QueryIdEnd(q, j).None?
        {
          if QueryIdEnd(q, j).Some? {
            QueryIdFromFirst(q, j);
          }
        }
      case Some(k) =>
        FoundId(q, k);
    }
  }

  /** What the pattern matches at `k` is a piece of the query that starts with "crl.mc" and ends with a digit. */
  lemma FoundId(q: string, k: nat)
    requires k <= |q| && QueryIdEnd(q, k).Some?
    ensures var t := q[k..QueryIdEnd(q, k).value];
      && Contains(q, t)
      && |t| > 6 && Lower(t[..6]) == "crl.mc"
      && IsDigit(t[|t| - 1])
  {
    var e := QueryIdEnd(q, k).value;
    QueryIdLong(q, k);
    var t := q[k..e];
    assert OccursAt(q, t, k);
    assert t[..6] == q[k..k + 6];
  }

  lemma QueryIdLong(q: string, k: nat)
    requires k <= |q| && QueryIdEnd(q, k).Some?
    ensures QueryIdEnd(q, k).value > k + 6
  {
  }

  // ---------------------------------------------------------------------
  // Ranking (app.py:63-81)

  /**
   * Put `h` in front of the first hit whose distance is not smaller: ties
   * stay in the order they arrived, as in Python's stable `sorted`.
   */
  function Insert(h: Hit, s: seq<Hit>): (r: seq<Hit>)
    ensures |r| == |s| + 1
    ensures multiset(r) == multiset(s) + multiset{h}
  {
    if s == [] || h.distance <= s[0].distance then [h] + s
    else
      assert s == [s[0]] + s[1..];
      [s[0]] + Insert(h, s[1..])
  }

  /**
   * `sorted(results, key=cosine_similarity, reverse=True)`: descending
   * similarity `1 - d/2` is ascending distance `d`.
   */
  function SortByDistance(rs: seq<Hit>): (r: seq<Hit>)
    ensures |r| == |rs|
  {
    if rs == [] then [] else Insert(rs[0], SortByDistance(rs[1..]))
  }

  predicate SortedByDistance(s: seq<Hit>)
  {
    forall i, j :: 0 <= i < j < |s| ==> s[i].distance <= s[j].distance
  }

  /** The hits of `s` at distance `d`, in order. */
  function Ties(s: seq<Hit>, d: real): seq<Hit>
  {
    if s == [] then [] else (if s[0].distance == d then [s[0]] else []) + Ties(s[1..], d)
  }

  lemma {:induction false} InsertBound(h: Hit, s: seq<Hit>, d: real)
    requires d <= h.distance
    requires forall i :: 0 <= i < |s| ==> d <= s[i].distance
    ensures forall i :: 0 <= i < |Insert(h, s)| ==> d <= Insert(h, s)[i].distance
  {
    if s != [] && h.distance > s[0].distance {
      InsertBound(h, s[1..], d);
    }
  }

  lemma {:induction false} InsertSorted(h: Hit, s: seq<Hit>)
    requires SortedByDistance(s)
    ensures SortedByDistance(Insert(h, s))
  {
    if s != [] && h.distance > s[0].distance {
      InsertSorted(h, s[1..]);
      InsertBound(h, s[1..], s[0].distance);
      var r := Insert(h, s[1..]);
      assert Insert(h, s) == [s[0]] + r;
    }
  }

  lemma {:induction false} InsertTies(h: Hit, s: seq<Hit>, d: real)
    ensures Ties(Insert(h, s), d) == (if h.distance == d then [h] else []) + Ties(s, d)
  {
    if s == [] || h.distance <= s[0].distance {
      assert (([h] + s)[1..]) == s;
    } else {
      InsertTies(h, s[1..], d);
      assert ([s[0]] + Insert(h, s[1..]))[1..] == Insert(h, s[1..]);
    }
  }

  /**
   * The sort orders the hits by distance, loses and adds none, and keeps
   * the hits at any one distance in the order they arrived.
   */
  lemma SortByDistanceSpec(rs: seq<Hit>)
    ensures SortedByDistance(SortByDistance(rs))
    ensures multiset(SortByDistance(rs)) == multiset(rs)
    ensures forall d :: Ties(SortByDistance(rs), d) == Ties(rs, d)
  {
    SortByDistanceSorted(rs);
    SortByDistancePermutes(rs);
    forall d
      ensures Ties(SortByDistance(rs), d) == Ties(rs, d)
    {
      SortByDistanceStable(rs, d);
    }
  }

  lemma {:induction false} SortByDistanceSorted(rs: seq<Hit>)
    ensures SortedByDistance(SortByDistance(rs))
  {
    if rs != [] {
      SortByDistanceSorted(rs[1..]);
      InsertSorted(rs[0], SortByDistance(rs[1..]));
    }
  }

  lemma {:induction false} SortByDistancePermutes(rs: seq<Hit>)
    ensures multiset(SortByDistance(rs)) == multiset(rs)
  {
    if rs != [] {
      SortByDistancePermutes(rs[1..]);
      assert rs == [rs[0]] + rs[1..];
    }
  }

  lemma {:induction false} SortByDistanceStable(rs: seq<Hit>, d: real)
    ensures Ties(SortByDistance(rs), d) == Ties(rs, d)
  {
    if rs != [] {
      SortByDistanceStable(rs[1..], d);
      InsertTies(rs[0], SortByDistance(rs[1..]), d);
    }
  }

  /** The hits whose case number is the one the query names. */
  predicate NamesCase(h: Hit, id: string)
  {
    NormId(h.meta.caseId) == NormId(id)
  }

  /** The first hit naming the case, if any. */
  function FirstNaming(rs: seq<Hit>, id: string): (k: Option<nat>)
    ensures k.Some? ==> k.value < |rs| && NamesCase(rs[k.value], id)
    ensures forall j :: 0 <= j < |rs| && (k.None? || j < k.value) ==> !NamesCase(rs[j], id)
  {
    if rs == [] then None
    else if NamesCase(rs[0], id) then Some(0)
    else match FirstNaming(rs[1..], id)
      case None => None
      case Some(k) => Some(k + 1)
  }

  /** How many hits the ranking keeps when no case is named. */
  const TopK: nat := 3

  /**
   * The ranking of `query_vector_store`, given the case number the query
   * names (if any): the first hit carrying it, alone; otherwise the three
   * nearest hits.
   */
  function RankFor(qid: Option<string>, rs: seq<Hit>): seq<Hit>
  {
    var nearest := Take(SortByDistance(rs), TopK);
    match qid
    case Some(id) =>
      (match FirstNaming(rs, id)
       case Some(k) => [rs[k]]
       case None => nearest)
    case None => nearest
  }

  /** `query_vector_store(query, ...)` on the hits the index returned. */
  function Rank(query: string, rs: seq<Hit>): seq<Hit>
  {
    RankFor(QueryId(query), rs)
  }

  /**
   * When the query names a case number that some hit carries, the result
   * is exactly the first such hit, in arrival order.
   */
  lemma RankExact(qid: Option<string>, rs: seq<Hit>)
    requires qid.Some?
    requires exists h :: h in rs && NamesCase(h, qid.value)
    ensures exists k :: (0 <= k < |rs| && RankFor(qid, rs) == [rs[k]]
      && NamesCase(rs[k], qid.value)
      && forall j :: 0 <= j < k ==> !NamesCase(rs[j], qid.value))
  {
    var id := qid.value;
    var h :| h in rs && NamesCase(h, id);
    var i :| 0 <= i < |rs| && rs[i] == h;
    var f := FirstNaming(rs, id);
    assert NamesCase(rs[i], id);
    assert f.Some?;
    var k := f.value;
    assert RankFor(qid, rs) == [rs[k]];
  }

  /** Cutting a sorted list keeps the front sorted, and everything cut off is at least as far. */
  lemma SplitSorted(s: seq<Hit>, n: nat)
    requires SortedByDistance(s)
    ensures SortedByDistance(Take(s, n))
    ensures multiset(Take(s, n)) + multiset(Drop(s, n)) == multiset(s)
    ensures forall i, j :: 0 <= i < |Take(s, n)| && 0 <= j < |Drop(s, n)| ==>
      Take(s, n)[i].distance <= Drop(s, n)[j].distance
  {
    var t := Take(s, n);
    var d := Drop(s, n);
    assert s == t + d;
    forall i, j | 0 <= i < |t| && 0 <= j < |d|
      ensures t[i].distance <= d[j].distance
    {
      assert t[i] == s[i] && d[j] == s[|t| + j];
    }
  }

  /**
   * Otherwise the result is the `min(3, n)` nearest hits, nearest first:
   * every hit left out is at least as far as every hit kept, and hits at
   * equal distance keep their arrival order.
   */
  lemma RankNearest(qid: Option<string>, rs: seq<Hit>)
    requires qid.None? || forall h :: h in rs ==> !NamesCase(h, qid.value)
    ensures RankFor(qid, rs) == Take(SortByDistance(rs), TopK)
    ensures |RankFor(qid, rs)| == if |rs| < TopK then |rs| else TopK
    ensures SortedByDistance(RankFor(qid, rs))
    ensures multiset(RankFor(qid, rs)) + multiset(Drop(SortByDistance(rs), TopK)) == multiset(rs)
    ensures forall i, j :: 0 <= i < |RankFor(qid, rs)| && 0 <= j < |Drop(SortByDistance(rs), TopK)| ==>
      RankFor(qid, rs)[i].distance <= Drop(SortByDistance(rs), TopK)[j].distance
    ensures forall d :: Ties(SortByDistance(rs), d) == Ties(rs, d)
  {
    if qid.Some? {
      assert FirstNaming(rs, qid.value).None?;
    }
    assert RankFor(qid, rs) == Take(SortByDistance(rs), TopK);
    SortByDistanceSpec(rs);
    SplitSorted(SortByDistance(rs), TopK);
  }

  /** The ranking keeps at most three hits, and none only when the search returned none. */
  lemma RankSize(qid: Option<string>, rs: seq<Hit>)
    ensures |RankFor(qid, rs)| <= TopK
    ensures RankFor(qid, rs) == [] <==> rs == []
    ensures forall h :: h in RankFor(qid, rs) ==> h in multiset(rs)
  {
    var s := SortByDistance(rs);
    var t := Take(s, TopK);
    if qid.Some? && FirstNaming(rs, qid.value).Some? {
      var k := FirstNaming(rs, qid.value).value;
      assert RankFor(qid, rs) == [rs[k]];
      assert rs[k] in multiset(rs);
    } else {
      assert RankFor(qid, rs) == t;
      SortByDistanceSpec(rs);
      SplitSorted(s, TopK);
      assert multiset(t) <= multiset(rs);
      assert rs != [] ==> |t| > 0;
    }
  }
}

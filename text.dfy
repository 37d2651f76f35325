/**
 * String vocabulary shared by every stage: Python's character classes
 * restricted to ASCII, case mapping, strip, substring search, the
 * whitespace and separator splits, join, and list(set(...)) deduplication.
 */
module Text {
  import opened Wrappers

  /** Python's `\s` and `str.isspace()` on ASCII: space, \t \n \v \f \r and \x1c-\x1f. */
  predicate IsSpace(c: char)
  {
    c == ' ' || 9 <= c as int <= 13 || 28 <= c as int <= 31
  }

  predicate IsAscii(c: char)
  {
    c as int < 128
  }

  /** Python's `\d`, taken as ASCII 0-9. */
  predicate IsDigit(c: char)
  {
    '0' <= c <= '9'
  }

  predicate IsUpperLetter(c: char)
  {
    'A' <= c <= 'Z'
  }

  predicate IsLowerLetter(c: char)
  {
    'a' <= c <= 'z'
  }

  predicate IsLetter(c: char)
  {
    IsUpperLetter(c) || IsLowerLetter(c)
  }

  /** Python's `\w` on ASCII, used for the `\b` word boundary. */
  predicate IsWordChar(c: char)
  {
    IsLetter(c) || IsDigit(c) || c == '_'
  }

  function ToLowerChar(c: char): char
  {
    if IsUpperLetter(c) then (c as int + 32) as char else c
  }

  function ToUpperChar(c: char): char
  {
    if IsLowerLetter(c) then (c as int - 32) as char else c
  }

  /** `str.lower()` */
  function Lower(s: string): string
  {
    seq(|s|, i requires 0 <= i < |s| => ToLowerChar(s[i]))
  }

  /** `str.upper()` */
  function Upper(s: string): string
  {
    seq(|s|, i requires 0 <= i < |s| => ToUpperChar(s[i]))
  }

  predicate AllDigits(s: string)
  {
    forall i :: 0 <= i < |s| ==> IsDigit(s[i])
  }

  predicate NoSpace(s: string)
  {
    forall i :: 0 <= i < |s| ==> !IsSpace(s[i])
  }

  /** No ASCII lower-case letter: what `str.upper()` leaves behind. */
  predicate IsUpperCase(s: string)
  {
    forall i :: 0 <= i < |s| ==> !IsLowerLetter(s[i])
  }

  /** No ASCII upper-case letter: what `str.lower()` leaves behind. */
  predicate IsLowerCase(s: string)
  {
    forall i :: 0 <= i < |s| ==> !IsUpperLetter(s[i])
  }

  // ---------------------------------------------------------------------
  // Substrings

  predicate OccursAt(s: string, t: string, i: nat)
  {
    i + |t| <= |s| && s[i..i + |t|] == t
  }

  /** Python's `t in s` for strings. */
  predicate Contains(s: string, t: string)
  {
    exists i :: 0 <= i <= |s| && OccursAt(s, t, i)
  }

  predicate StartsWith(s: string, t: string)
  {
    |t| <= |s| && s[..|t|] == t
  }

  predicate EndsWith(s: string, t: string)
  {
    |t| <= |s| && s[|s| - |t|..] == t
  }

  /** Case-insensitive containment of a lower-case needle. */
  predicate ContainsCI(s: string, t: string)
  {
    Contains(Lower(s), t)
  }

  lemma ContainsSlice(s: string, a: nat, b: nat, t: string)
    requires a <= b <= |s|
    requires Contains(s[a..b], t)
    ensures Contains(s, t)
  {
    var i :| 0 <= i <= b - a && OccursAt(s[a..b], t, i);
    forall k | 0 <= k < |t|
      ensures s[a + i + k] == t[k]
    {
      assert s[a..b][i..i + |t|][k] == t[k];
    }
    assert s[a + i..a + i + |t|] == t;
    assert OccursAt(s, t, a + i);
  }

  lemma LowerSlice(s: string, a: nat, b: nat)
    requires a <= b <= |s|
    ensures Lower(s[a..b]) == Lower(s)[a..b]
  {
  }

  /** A substring of a string that lacks a (case-insensitive) needle lacks it too. */
  lemma ContainsCISlice(s: string, a: nat, b: nat, t: string)
    requires a <= b <= |s|
    requires ContainsCI(s[a..b], t)
    ensures ContainsCI(s, t)
  {
    LowerSlice(s, a, b);
    ContainsSlice(Lower(s), a, b, t);
  }

  lemma LowerUpperChar(c: char)
    ensures ToLowerChar(ToUpperChar(c)) == ToLowerChar(c)
  {
  }

  /** Upper-casing does not change what a case-insensitive search sees. */
  lemma LowerOfUpper(s: string)
    ensures Lower(Upper(s)) == Lower(s)
  {
    forall i | 0 <= i < |s|
      ensures Lower(Upper(s))[i] == Lower(s)[i]
    {
      LowerUpperChar(s[i]);
    }
  }

  lemma UpperIsUpperCase(s: string)
    ensures IsUpperCase(Upper(s))
  {
  }

  lemma LowerIsLowerCase(s: string)
    ensures IsLowerCase(Lower(s))
  {
  }

  lemma UpperOfUpperCase(s: string)
    requires IsUpperCase(s)
    ensures Upper(s) == s
  {
  }

  lemma UpperPreservesSpaces(s: string)
    ensures forall i :: 0 <= i < |s| ==> (IsSpace(Upper(s)[i]) <==> IsSpace(s[i]))
    ensures forall i :: 0 <= i < |s| ==> (IsDigit(Upper(s)[i]) <==> IsDigit(s[i]))
  {
  }

  // ---------------------------------------------------------------------
  // Strip

  /** `str.lstrip()` */
  function LStrip(s: string): (r: string)
    ensures |r| <= |s| && r == s[|s| - |r|..]
    ensures r == [] || !IsSpace(r[0])
    ensures forall i :: 0 <= i < |s| - |r| ==> IsSpace(s[i])
    ensures s != [] && IsSpace(s[0]) ==> |r| < |s|
  {
    if s != [] && IsSpace(s[0]) then LStrip(s[1..]) else s
  }

  /** `str.rstrip()` */
  function RStrip(s: string): (r: string)
    ensures |r| <= |s| && r == s[..|r|]
    ensures r == [] || !IsSpace(r[|r| - 1])
    ensures forall i :: |r| <= i < |s| ==> IsSpace(s[i])
  {
    if s != [] && IsSpace(s[|s| - 1]) then RStrip(s[..|s| - 1]) else s
  }

  /** Number of leading whitespace characters: where `Strip` starts. */
  function StripStart(s: string): (k: nat)
    ensures k <= |s|
  {
    |s| - |LStrip(s)|
  }

  /** `str.strip()`: the middle of `s` once leading and trailing whitespace are gone. */
  function Strip(s: string): (r: string)
    ensures StripStart(s) + |r| <= |s|
    ensures r == s[StripStart(s)..StripStart(s) + |r|]
    ensures r == [] || (!IsSpace(r[0]) && !IsSpace(r[|r| - 1]))
    ensures forall i :: 0 <= i < StripStart(s) ==> IsSpace(s[i])
    ensures forall i :: StripStart(s) + |r| <= i < |s| ==> IsSpace(s[i])
  {
    RStrip(LStrip(s))
  }

  /** A leading space makes no difference once stripped. */
  lemma StripSpaceFront(y: string)
    ensures Strip(" " + y) == Strip(y)
  {
    assert (" " + y)[1..] == y;
  }

  /** Trailing whitespace is cut from the second half only, when that half has a non-space. */
  lemma {:induction false} RStripAppend(a: string, y: string)
    requires y != [] && !IsSpace(y[0])
    ensures RStrip(a + y) == a + RStrip(y)
    decreases |y|
  {
    var z := a + y;
    if IsSpace(y[|y| - 1]) {
      var y' := y[..|y| - 1];
      assert z[..|z| - 1] == a + y';
      RStripAppend(a, y');
    }
  }

  /** Stripping two halves that both start with a non-space strips the second only. */
  lemma StripAppend(a: string, y: string)
    requires a != [] && !IsSpace(a[0]) && y != [] && !IsSpace(y[0])
    ensures Strip(a + y) == a + Strip(y)
  {
    assert (a + y)[0] == a[0];
    assert LStrip(a + y) == a + y;
    RStripAppend(a, y);
  }

  /** A word, with nothing or a single space after it, strips to the word. */
  lemma StripOfWord(w: string, e: string)
    requires w != [] && NoSpace(w) && (e == [] || e == " ")
    ensures Strip(w + e) == w
  {
    assert (w + e)[0] == w[0];
    assert LStrip(w + e) == w + e;
    if e == " " {
      assert (w + e)[..|w|] == w;
      assert !IsSpace(w[|w| - 1]);
      assert RStrip(w + e) == RStrip(w);
    } else {
      assert w + e == w;
    }
  }

  lemma StripContained(s: string)
    ensures Contains(s, Strip(s))
  {
    assert OccursAt(s, Strip(s), StripStart(s));
  }

  /** A slice of a slice is a slice of the whole. */
  lemma SliceOfSlice<T>(x: seq<T>, lo: nat, hi: nat, a: nat, b: nat)
    requires lo <= hi <= |x| && a <= b <= hi - lo
    ensures x[lo..hi][a..b] == x[lo + a..lo + b]
  {
    var y := x[lo..hi][a..b];
    var z := x[lo + a..lo + b];
    forall i | 0 <= i < |y|
      ensures y[i] == z[i]
    {
    }
  }

  /** The strip of a string is found in it where the leading whitespace ends. */
  lemma StripOccurs(w: string)
    ensures OccursAt(w, Strip(w), StripStart(w))
  {
  }

  /** An occurrence inside `x[lo..hi]` is an occurrence in `x`, within the window. */
  lemma OccursInSlice(x: string, lo: nat, hi: nat, t: string, i: nat)
    requires lo <= hi <= |x| && OccursAt(x[lo..hi], t, i)
    ensures OccursAt(x, t, lo + i) && lo + i + |t| <= hi
  {
    SliceAt(x, lo, hi, i, t);
  }

  /** A piece found at `st` inside `x[lo..hi]` is found at `lo + st` in `x`. */
  lemma SliceAt<T>(x: seq<T>, lo: nat, hi: nat, st: nat, r: seq<T>)
    requires lo <= hi <= |x| && st + |r| <= hi - lo
    requires r == x[lo..hi][st..st + |r|]
    ensures lo + st + |r| <= hi && x[lo + st..lo + st + |r|] == r
  {
    SliceOfSlice(x, lo, hi, st, st + |r|);
  }

  /** Stripping adds no character. */
  lemma StripLacks(s: string, c: char)
    requires c !in s
    ensures c !in Strip(s)
  {
    var r := Strip(s);
    var st := StripStart(s);
    SliceOfSlice(s, 0, |s|, st, st + |r|);
    assert s[0..|s|] == s;
    assert forall i :: 0 <= i < |r| ==> r[i] == s[st + i];
  }

  /** When the last `n` characters are not whitespace, strip only trims the front. */
  lemma StripKeepsTail(g: string, n: nat)
    requires 0 < n <= |g|
    requires forall i :: |g| - n <= i < |g| ==> !IsSpace(g[i])
    ensures StripStart(g) <= |g| - n && Strip(g) == g[StripStart(g)..]
  {
    var st := StripStart(g);
    assert !IsSpace(g[|g| - 1]);
    assert !IsSpace(g[|g| - n]);
  }

  /** A string with no whitespace at either end is its own strip. */
  lemma StripOfTrimmed(s: string)
    requires s == [] || (!IsSpace(s[0]) && !IsSpace(s[|s| - 1]))
    ensures Strip(s) == s
  {
    assert LStrip(s) == s;
  }

  /** `s[:n]` */
  function Take<T>(s: seq<T>, n: nat): (r: seq<T>)
    ensures |r| <= n && |r| <= |s|
    ensures r == s[..|r|]
    ensures |s| <= n ==> r == s
    ensures n <= |s| ==> |r| == n
  {
    if |s| <= n then s else s[..n]
  }

  /** `s[n:]` */
  function Drop<T>(s: seq<T>, n: nat): (r: seq<T>)
    ensures |s| <= n ==> r == []
    ensures n <= |s| ==> r == s[n..]
  {
    if |s| <= n then [] else s[n..]
  }

  // ---------------------------------------------------------------------
  // Splitting and joining

  /** Length of the longest prefix of `s` without whitespace. */
  function WordLength(s: string): (n: nat)
    ensures n <= |s|
    ensures forall i :: 0 <= i < n ==> !IsSpace(s[i])
    ensures n < |s| ==> IsSpace(s[n])
  {
    if s != [] && !IsSpace(s[0]) then 1 + WordLength(s[1..]) else 0
  }

  /** The non-empty pieces of `re.split(r'\s+', s)`. */
  function Words(s: string): seq<string>
    decreases |s|
  {
    var t := LStrip(s);
    if t == [] then []
    else
      var n := WordLength(t);
      [t[..n]] + Words(t[n..])
  }

  /** Every word is non-empty and free of whitespace. */
  lemma {:induction false} WordsShape(s: string)
    ensures forall w :: w in Words(s) ==> w != [] && NoSpace(w)
    decreases |s|
  {
    var t := LStrip(s);
    if t != [] {
      var n := WordLength(t);
      WordsShape(t[n..]);
      assert Words(s) == [t[..n]] + Words(t[n..]);
      assert n > 0 && NoSpace(t[..n]);
    }
  }

  /** A word followed by nothing or by whitespace is measured whole. */
  lemma {:induction false} WordLengthOf(w: string, rest: string)
    requires NoSpace(w) && (rest == [] || IsSpace(rest[0]))
    ensures WordLength(w + rest) == |w|
    decreases |w|
  {
    if w != [] {
      WordLengthOf(w[1..], rest);
      assert (w + rest)[1..] == w[1..] + rest;
    } else {
      assert w + rest == rest;
    }
  }

  /** Whitespace in front changes no word. */
  lemma SpaceThenWords(j: string)
    requires j == [] || !IsSpace(j[0])
    ensures Words(" " + j) == Words(j)
  {
    assert (" " + j)[1..] == j;
    assert LStrip(" " + j) == j;
  }

  /** A word at the front, followed by nothing or by whitespace, is the first word. */
  lemma WordsCons(w: string, rest: string)
    requires w != [] && NoSpace(w) && (rest == [] || IsSpace(rest[0]))
    ensures Words(w + rest) == [w] + Words(rest)
  {
    var x := w + rest;
    assert x[0] == w[0];
    assert LStrip(x) == x;
    WordLengthOf(w, rest);
    assert x[..|w|] == w && x[|w|..] == rest;
  }

  lemma Regroup<T>(a: seq<T>, b: seq<T>, c: seq<T>)
    ensures a + b + c == a + (b + c)
  {
  }

  /** A join starts with its first part. */
  lemma JoinStartsWithFirst(parts: seq<string>, sep: string)
    requires parts != []
    ensures |parts[0]| <= |Join(parts, sep)| && Join(parts, sep)[..|parts[0]|] == parts[0]
  {
    if |parts| > 1 {
      assert Join(parts, sep) == parts[0] + (sep + Join(parts[1..], sep));
    }
  }

  /**
   * Splitting words that were joined with single spaces gives them back:
   * `Words` finds exactly the words a space-separated line was made of.
   */
  lemma {:induction false} WordsOfJoin(ws: seq<string>)
    requires forall w :: w in ws ==> w != [] && NoSpace(w)
    ensures Words(Join(ws, " ")) == ws
    decreases |ws|
  {
    if |ws| == 1 {
      assert ws[0] in ws;
      WordsCons(ws[0], []);
      assert ws[0] + [] == ws[0];
    } else if ws != [] {
      assert forall v :: v in ws[1..] ==> v in ws;
      WordsOfJoin(ws[1..]);
      WordsOfJoinStep(ws);
    }
  }

  /** One word of `WordsOfJoin`, given the words after it. */
  lemma WordsOfJoinStep(ws: seq<string>)
    requires |ws| > 1 && forall w :: w in ws ==> w != [] && NoSpace(w)
    requires Words(Join(ws[1..], " ")) == ws[1..]
    ensures Words(Join(ws, " ")) == ws
  {
    var w := ws[0];
    var j := Join(ws[1..], " ");
    assert w in ws && ws[1] in ws && ws[1..][0] == ws[1];
    JoinLeadsWithWord(ws[1..]);
    assert Join(ws, " ") == w + " " + j;
    Regroup(w, " ", j);
    WordsCons(w, " " + j);
    SpaceThenWords(j);
    HeadTail(ws);
  }

  /** A join whose first part is a word starts with a non-space. */
  lemma JoinLeadsWithWord(parts: seq<string>)
    requires parts != [] && parts[0] != [] && !IsSpace(parts[0][0])
    ensures Join(parts, " ") != [] && !IsSpace(Join(parts, " ")[0])
  {
    JoinStartsWithFirst(parts, " ");
    assert Join(parts, " ")[0] == Join(parts, " ")[..|parts[0]|][0];
  }

  /** A character absent from a string is absent from each of its words. */
  lemma {:induction false} WordsLack(s: string, c: char)
    requires c !in s
    ensures forall w :: w in Words(s) ==> c !in w
    decreases |s|
  {
    var t := LStrip(s);
    if t != [] {
      var n := WordLength(t);
      assert c !in t;
      assert c !in t[..n] && c !in t[n..];
      WordsLack(t[n..], c);
      assert Words(s) == [t[..n]] + Words(t[n..]);
    }
  }

  /** The leftmost occurrence of `t` in `s` at or after `i`. */
  function FindFrom(s: string, t: string, i: nat): (j: Option<nat>)
    requires i <= |s|
    ensures j.Some? ==> i <= j.value <= |s| && OccursAt(s, t, j.value)
    ensures forall k :: i <= k <= |s| && (j.None? || k < j.value) ==> !OccursAt(s, t, k)
    decreases |s| - i
  {
    if OccursAt(s, t, i) then Some(i)
    else if i == |s| then None
    else FindFrom(s, t, i + 1)
  }

  /** The first `k` from `i` up to `n` where `p` holds: the scan of `re.search`. */
  function FirstWhere(n: nat, i: nat, p: nat -> bool): (k: Option<nat>)
    requires i <= n
    ensures k.Some? ==> i <= k.value <= n && p(k.value)
    decreases n - i
  {
    if p(i) then Some(i)
    else if i == n then None
    else FirstWhere(n, i + 1, p)
  }

  /** The scan stops at the first place `p` holds: never after a `j` where it holds. */
  lemma {:induction false} FirstWhereFirst(n: nat, i: nat, p: nat -> bool, j: nat)
    requires i <= j <= n && p(j)
    ensures FirstWhere(n, i, p).Some? && FirstWhere(n, i, p).value <= j
    decreases j - i
  {
    if !p(i) {
      FirstWhereFirst(n, i + 1, p, j);
    }
  }

  /**
   * `s[i:].split(sep)[-1]` for a non-empty `sep`: what follows the last of
   * the occurrences that the left-to-right, non-overlapping scan finds.
   */
  function LastPiece(s: string, sep: string, i: nat): (r: string)
    requires sep != [] && i <= |s|
    ensures |r| <= |s| - i && r == s[|s| - |r|..]
    decreases |s| - i
  {
    match FindFrom(s, sep, i)
    case None => s[i..]
    case Some(j) => LastPiece(s, sep, j + |sep|)
  }

  /** The last piece of a split never holds the separator. */
  lemma {:induction false} LastPieceLacksSep(s: string, sep: string, i: nat)
    requires sep != [] && i <= |s|
    ensures !Contains(LastPiece(s, sep, i), sep)
    decreases |s| - i
  {
    match FindFrom(s, sep, i)
    case None =>
      TailLacks(s, sep, i);
    case Some(j) =>
      LastPieceLacksSep(s, sep, j + |sep|);
  }

  /** A tail in which no occurrence starts does not contain `t`. */
  lemma TailLacks(s: string, t: string, i: nat)
    requires i <= |s|
    requires forall k :: i <= k <= |s| ==> !OccursAt(s, t, k)
    ensures !Contains(s[i..], t)
  {
    forall k | 0 <= k <= |s| - i
      ensures !OccursAt(s[i..], t, k)
    {
      assert !OccursAt(s, t, i + k);
      if k + |t| <= |s| - i {
        assert s[i..][k..k + |t|] == s[i + k..i + k + |t|];
      }
    }
  }

  function IndexOf(s: string, c: char): (i: nat)
    requires c in s
    ensures i < |s| && s[i] == c && c !in s[..i]
  {
    if s[0] == c then 0 else 1 + IndexOf(s[1..], c)
  }

  /** The first occurrence is the one with no earlier copy. */
  lemma {:induction false} IndexOfAt(s: string, c: char, i: nat)
    requires i < |s| && s[i] == c && c !in s[..i]
    ensures IndexOf(s, c) == i
  {
    if i > 0 {
      assert s[..i][0] == s[0];
      assert s[1..][..i - 1] == s[..i][1..];
      IndexOfAt(s[1..], c, i - 1);
    }
  }

  /** `s.split(sep)` for a one-character separator. */
  function Split(s: string, sep: char): (parts: seq<string>)
    ensures |parts| >= 1
    ensures forall p :: p in parts ==> sep !in p
    decreases |s|
  {
    if sep in s then
      var i := IndexOf(s, sep);
      [s[..i]] + Split(s[i + 1..], sep)
    else
      [s]
  }

  /** `sep.join(parts)` */
  function Join(parts: seq<string>, sep: string): string
  {
    if parts == [] then ""
    else if |parts| == 1 then parts[0]
    else parts[0] + sep + Join(parts[1..], sep)
  }

  /** Joining the pieces with the separator gives back the string that was split. */
  lemma {:induction false} JoinSplit(s: string, sep: char)
    ensures Join(Split(s, sep), [sep]) == s
    decreases |s|
  {
    if sep in s {
      var i := IndexOf(s, sep);
      JoinSplit(s[i + 1..], sep);
      JoinSplitStep(s, sep, i);
    }
  }

  /** One piece of `JoinSplit`, given the pieces after the first separator. */
  lemma JoinSplitStep(s: string, sep: char, i: nat)
    requires sep in s && i == IndexOf(s, sep)
    requires Join(Split(s[i + 1..], sep), [sep]) == s[i + 1..]
    ensures Join(Split(s, sep), [sep]) == s
  {
    var rest := Split(s[i + 1..], sep);
    SplitFirst(s, sep, i);
    JoinCons(s[..i], rest, [sep]);
    SliceAround(s, i);
  }

  lemma ConcatHead<T>(a: seq<T>, b: seq<T>)
    requires a != []
    ensures (a + b)[0] == a[0] && (a + b)[1..] == a[1..] + b
  {
  }

  lemma SplitFirst(s: string, sep: char, i: nat)
    requires sep in s && i == IndexOf(s, sep)
    ensures Split(s, sep) == [s[..i]] + Split(s[i + 1..], sep)
  {
    SliceAround(s, i);
    SplitCons(s[..i], sep, s[i + 1..]);
  }

  lemma TakeDrop<T>(s: seq<T>, n: nat)
    requires n <= |s|
    ensures s[..n] + s[n..] == s
  {
  }

  lemma HeadTail<T>(s: seq<T>)
    requires s != []
    ensures s == [s[0]] + s[1..]
  {
  }

  lemma SliceAround<T>(s: seq<T>, i: nat)
    requires i < |s|
    ensures s == s[..i] + [s[i]] + s[i + 1..]
  {
  }

  lemma JoinCons(a: string, rest: seq<string>, sep: string)
    requires rest != []
    ensures Join([a] + rest, sep) == a + sep + Join(rest, sep)
  {
    assert ([a] + rest)[1..] == rest;
  }

  /** Splitting at the first separator peels off the piece before it. */
  lemma SplitCons(a: string, sep: char, rest: string)
    requires sep !in a
    ensures Split(a + [sep] + rest, sep) == [a] + Split(rest, sep)
  {
    var s := a + [sep] + rest;
    assert s[..|a|] == a && s[|a|] == sep;
    IndexOfAt(s, sep, |a|);
    assert s[|a| + 1..] == rest;
  }

  /** Splitting a newline-join of newline-free lines gives the lines back. */
  lemma {:induction false} SplitJoin(lines: seq<string>)
    requires lines != []
    requires forall l :: l in lines ==> '\n' !in l
    ensures Split(Join(lines, "\n"), '\n') == lines
  {
    if |lines| == 1 {
      assert Join(lines, "\n") == lines[0];
    } else {
      var rest := Join(lines[1..], "\n");
      assert Join(lines, "\n") == lines[0] + ['\n'] + rest;
      assert lines[0] in lines;
      SplitCons(lines[0], '\n', rest);
      SplitJoin(lines[1..]);
      assert lines == [lines[0]] + lines[1..];
    }
  }

  lemma ContainsMiddle(a: string, b: string, c: string)
    ensures Contains(a + b + c, b)
  {
    assert OccursAt(a + b + c, b, |a|) by {
      assert (a + b + c)[|a|..|a| + |b|] == b;
    }
  }

  /** What is found in a string is found in it with anything in front. */
  lemma ContainsShift(a: string, s: string, t: string)
    requires Contains(s, t)
    ensures Contains(a + s, t)
  {
    var i :| 0 <= i <= |s| && OccursAt(s, t, i);
    assert (a + s)[|a| + i..|a| + i + |t|] == s[i..i + |t|];
    assert OccursAt(a + s, t, |a| + i);
  }

  /** Each part of a joined list is found in the joined text. */
  lemma {:induction false} JoinContains(parts: seq<string>, sep: string, i: nat)
    requires i < |parts|
    ensures Contains(Join(parts, sep), parts[i])
  {
    if |parts| == 1 {
      ContainsMiddle("", parts[0], "");
      assert "" + parts[0] + "" == parts[0];
    } else if i == 0 {
      ContainsMiddle("", parts[0], sep + Join(parts[1..], sep));
      assert "" + parts[0] + (sep + Join(parts[1..], sep)) == Join(parts, sep);
    } else {
      JoinContains(parts[1..], sep, i - 1);
      ContainsShift(parts[0] + sep, Join(parts[1..], sep), parts[i]);
      assert parts[0] + sep + Join(parts[1..], sep) == Join(parts, sep);
    }
  }

  /** Containment is transitive. */
  lemma ContainsInContains(s: string, t: string, u: string)
    requires Contains(s, t) && Contains(t, u)
    ensures Contains(s, u)
  {
    var i :| 0 <= i <= |s| && OccursAt(s, t, i);
    var j :| 0 <= j <= |t| && OccursAt(t, u, j);
    forall k | 0 <= k < |u|
      ensures s[i + j..i + j + |u|][k] == u[k]
    {
      assert u[k] == t[j..j + |u|][k] == t[j + k];
      assert t[j + k] == s[i..i + |t|][j + k] == s[i + j + k];
    }
    assert s[i + j..i + j + |u|] == u;
    assert OccursAt(s, u, i + j);
  }

  /** The same, for a string known to be built of those three pieces. */
  lemma NamesField(r: string, a: string, x: string, b: string)
    requires r == a + x + b
    ensures Contains(r, x)
  {
    ContainsMiddle(a, x, b);
  }

  /** The pieces of an f-string, one after the other. */
  function Concat(parts: seq<string>): string
  {
    if parts == [] then "" else parts[0] + Concat(parts[1..])
  }

  /** Each piece is found in the whole. */
  lemma {:induction false} ConcatContains(parts: seq<string>, i: nat)
    requires i < |parts|
    ensures Contains(Concat(parts), parts[i])
  {
    if i == 0 {
      ContainsMiddle("", parts[0], Concat(parts[1..]));
      assert "" + parts[0] + Concat(parts[1..]) == Concat(parts);
    } else {
      ConcatContains(parts[1..], i - 1);
      ContainsShift(parts[0], Concat(parts[1..]), parts[i]);
    }
  }

  /** The whole starts with the first piece. */
  lemma ConcatStarts(parts: seq<string>)
    requires parts != []
    ensures StartsWith(Concat(parts), parts[0])
  {
    assert Concat(parts)[..|parts[0]|] == parts[0];
  }

  /** The whole ends with the last piece. */
  lemma {:induction false} ConcatEnds(parts: seq<string>)
    requires parts != []
    ensures EndsWith(Concat(parts), parts[|parts| - 1])
  {
    if |parts| == 1 {
      assert Concat(parts) == parts[0] + "";
    } else {
      var rest := Concat(parts[1..]);
      ConcatEnds(parts[1..]);
      var w := parts[|parts| - 1];
      assert (parts[0] + rest)[|parts[0] + rest| - |w|..] == rest[|rest| - |w|..];
    }
  }

  // ---------------------------------------------------------------------
  // Sequences as lists

  predicate NoDups<T(==)>(xs: seq<T>)
  {
    forall i, j :: 0 <= i < j < |xs| ==> xs[i] != xs[j]
  }

  /** `list(set(xs))`, keeping the first occurrence of each element. */
  function Dedup<T(==,!new)>(xs: seq<T>): (r: seq<T>)
    ensures NoDups(r)
    ensures forall x :: x in r <==> x in xs
    ensures |r| <= |xs|
    ensures r == [] <==> xs == []
  {
    if xs == [] then []
    else
      var r := Dedup(xs[..|xs| - 1]);
      assert xs == xs[..|xs| - 1] + [xs[|xs| - 1]];
      if xs[|xs| - 1] in r then r else r + [xs[|xs| - 1]]
  }

  /** One more element is added to the de-duplicated list unless it is already there. */
  lemma DedupSnoc<T(!new)>(xs: seq<T>, u: T)
    ensures Dedup(xs + [u]) == if u in Dedup(xs) then Dedup(xs) else Dedup(xs) + [u]
  {
    assert (xs + [u])[..|xs|] == xs;
  }

  /** A list without duplicates is its own de-duplication. */
  lemma {:induction false} DedupOfNoDups<T(!new)>(xs: seq<T>)
    requires NoDups(xs)
    ensures Dedup(xs) == xs
  {
    if xs != [] {
      var init := xs[..|xs| - 1];
      assert NoDups(init);
      DedupOfNoDups(init);
      assert xs[|xs| - 1] !in init;
      assert xs == init + [xs[|xs| - 1]];
    }
  }

  /** The values `f` gives for the elements of `xs`, in order, where it gives one. */
  function KeptBy<T, U>(xs: seq<T>, f: T -> Option<U>): seq<U>
  {
    if xs == [] then []
    else
      var rest := KeptBy(xs[..|xs| - 1], f);
      match f(xs[|xs| - 1])
      case Some(u) => rest + [u]
      case None => rest
  }

  /** Extending the list by one element extends what is kept by what `f` gives for it. */
  lemma KeptBySnoc<T, U>(xs: seq<T>, f: T -> Option<U>, i: nat)
    requires i < |xs|
    ensures KeptBy(xs[..i + 1], f) == KeptBy(xs[..i], f) + (match f(xs[i]) case Some(u) => [u] case None => [])
  {
    assert xs[..i + 1][..i] == xs[..i];
  }

  /** One more element adds what `f` gives for it to the de-duplicated list, unless it is already there. */
  lemma DedupKeptSnoc<T, U(!new)>(xs: seq<T>, f: T -> Option<U>, i: nat)
    requires i < |xs|
    ensures var before := Dedup(KeptBy(xs[..i], f));
      Dedup(KeptBy(xs[..i + 1], f))
      == if f(xs[i]).Some? && f(xs[i]).value !in before then before + [f(xs[i]).value] else before
  {
    KeptBySnoc(xs, f, i);
    if f(xs[i]).Some? {
      DedupSnoc(KeptBy(xs[..i], f), f(xs[i]).value);
    } else {
      assert KeptBy(xs[..i], f) + [] == KeptBy(xs[..i], f);
    }
  }

  lemma {:induction false} KeptByMembership<T, U>(xs: seq<T>, f: T -> Option<U>, u: U)
    ensures u in KeptBy(xs, f) <==> exists s :: s in xs && f(s) == Some(u)
  {
    if xs != [] {
      var init := xs[..|xs| - 1];
      KeptByMembership(init, f, u);
      assert xs == init + [xs[|xs| - 1]];
      if exists s :: s in xs && f(s) == Some(u) {
        var s :| s in xs && f(s) == Some(u);
        if s != xs[|xs| - 1] {
          assert s in init;
        }
      }
    }
  }

  lemma {:induction false} KeptByLength<T, U>(xs: seq<T>, f: T -> Option<U>)
    ensures |KeptBy(xs, f)| <= |xs|
  {
    if xs != [] {
      KeptByLength(xs[..|xs| - 1], f);
    }
  }

  lemma {:induction false} KeptByFixed<T>(r: seq<T>, f: T -> Option<T>)
    requires forall u :: u in r ==> f(u) == Some(u)
    ensures KeptBy(r, f) == r
  {
    if r != [] {
      var init := r[..|r| - 1];
      assert forall u :: u in init ==> u in r;
      KeptByFixed(init, f);
      assert r == init + [r[|r| - 1]];
    }
  }

  /** `a` is `b` with some elements left out, the rest in their order. */
  predicate IsSubsequence<T(==)>(a: seq<T>, b: seq<T>)
    decreases |b|
  {
    a == [] || (b != [] && if a[0] == b[0] then IsSubsequence(a[1..], b[1..]) else IsSubsequence(a, b[1..]))
  }

  lemma {:induction false} SubsequenceElements<T>(a: seq<T>, b: seq<T>)
    requires IsSubsequence(a, b)
    ensures |a| <= |b|
    ensures forall x :: x in a ==> x in b
    decreases |b|
  {
    if a != [] {
      if a[0] == b[0] {
        SubsequenceElements(a[1..], b[1..]);
        assert a == [a[0]] + a[1..];
      } else {
        SubsequenceElements(a, b[1..]);
      }
    }
  }

  lemma {:induction false} SubsequencePrefix<T>(a: seq<T>, b: seq<T>, k: nat)
    requires IsSubsequence(a, b) && k <= |a|
    ensures IsSubsequence(a[..k], b)
    decreases |b|
  {
    if k > 0 {
      if a[0] == b[0] {
        SubsequencePrefix(a[1..], b[1..], k - 1);
        assert a[..k][1..] == a[1..][..k - 1];
      } else {
        SubsequencePrefix(a, b[1..], k);
      }
    }
  }

  lemma {:induction false} PrefixIsSubsequence<T>(b: seq<T>, k: nat)
    requires k <= |b|
    ensures IsSubsequence(b[..k], b)
    decreases |b|
  {
    if k > 0 {
      PrefixIsSubsequence(b[1..], k - 1);
      assert b[..k][1..] == b[1..][..k - 1];
    }
  }

  /** `[x for x in xs if p(x)]` */
  function Filter<T(!new)>(xs: seq<T>, p: T -> bool): (r: seq<T>)
    ensures forall x :: x in r ==> x in xs && p(x)
    ensures forall x :: x in xs && p(x) ==> x in r
    ensures forall x :: p(x) ==> multiset(r)[x] == multiset(xs)[x]
    ensures |r| <= |xs|
  {
    if xs == [] then []
    else
      assert xs == [xs[0]] + xs[1..];
      (if p(xs[0]) then [xs[0]] else []) + Filter(xs[1..], p)
  }

  lemma {:induction false} FilterIsSubsequence<T(!new)>(xs: seq<T>, p: T -> bool)
    ensures IsSubsequence(Filter(xs, p), xs)
  {
    if xs != [] {
      FilterIsSubsequence(xs[1..], p);
      var f := Filter(xs, p);
      if p(xs[0]) {
        assert f[0] == xs[0] && f[1..] == Filter(xs[1..], p);
      } else {
        assert f == Filter(xs[1..], p);
        SubsequenceSkip(f, xs[1..], xs[0]);
        assert [xs[0]] + xs[1..] == xs;
      }
    }
  }

  /** Putting an element in front of the longer list keeps a subsequence one. */
  lemma {:induction false} SubsequenceSkip<T>(a: seq<T>, b: seq<T>, x: T)
    requires IsSubsequence(a, b)
    ensures IsSubsequence(a, [x] + b)
    decreases |b|, 1
  {
    assert ([x] + b)[1..] == b;
    if a != [] && a[0] == x {
      SubsequenceDrop(a, b);
    }
  }

  /** Dropping the head of a subsequence keeps it one. */
  lemma {:induction false} SubsequenceDrop<T>(a: seq<T>, b: seq<T>)
    requires a != [] && IsSubsequence(a, b)
    ensures IsSubsequence(a[1..], b)
    decreases |b|, 0
  {
    if a[0] == b[0] {
      SubsequenceSkip(a[1..], b[1..], b[0]);
      assert [b[0]] + b[1..] == b;
    } else {
      SubsequenceDrop(a, b[1..]);
      SubsequenceSkip(a[1..], b[1..], b[0]);
      assert [b[0]] + b[1..] == b;
    }
  }
}

/**
 * The text normaliser `clean_text` of preprocess.py: drop every non-ASCII
 * character, replace each whitespace run by one space, trim both ends.
 */
module Normalizer {
  import opened Text

  /** `re.sub(r'[^\x00-\x7F]+', '', s)` */
  function DropNonAscii(s: string): (r: string)
    ensures |r| <= |s|
  {
    if s == [] then []
    else (if IsAscii(s[0]) then [s[0]] else []) + DropNonAscii(s[1..])
  }

  /** `re.sub(r'\s+', ' ', s)`: each maximal whitespace run becomes one space. */
  function CollapseSpaces(s: string): (r: string)
    ensures |r| <= |s|
    ensures s != [] && !IsSpace(s[0]) ==> r != [] && r[0] == s[0]
    decreases |s|
  {
    if s == [] then []
    else if IsSpace(s[0]) then " " + CollapseSpaces(LStrip(s))
    else [s[0]] + CollapseSpaces(s[1..])
  }

  /** After collapsing, the only whitespace left is the plain space. */
  lemma {:induction false} CollapseOnlySpaces(s: string)
    ensures PlainSpaces(CollapseSpaces(s))
    decreases |s|
  {
    if s != [] {
      var rest := if IsSpace(s[0]) then LStrip(s) else s[1..];
      var h := if IsSpace(s[0]) then ' ' else s[0];
      CollapseOnlySpaces(rest);
      assert CollapseSpaces(s) == [h] + CollapseSpaces(rest);
    }
  }

  /** After collapsing, no two spaces are adjacent. */
  lemma {:induction false} CollapseNoDoubleSpace(s: string)
    ensures NoDoubleSpace(CollapseSpaces(s))
    decreases |s|
  {
    if s != [] {
      var rest := if IsSpace(s[0]) then LStrip(s) else s[1..];
      var h := if IsSpace(s[0]) then ' ' else s[0];
      CollapseNoDoubleSpace(rest);
      var c := CollapseSpaces(rest);
      assert CollapseSpaces(s) == [h] + c;
      assert h == ' ' && c != [] ==> c[0] == rest[0] && c[0] != ' ';
      NoDoubleCons(h, c);
    }
  }

  /** Putting a character before a string keeps spaces apart unless both are spaces. */
  lemma NoDoubleCons(h: char, c: string)
    requires NoDoubleSpace(c) && (h == ' ' && c != [] ==> c[0] != ' ')
    ensures NoDoubleSpace([h] + c)
  {
    var r := [h] + c;
    forall i | 0 <= i < |r| - 1
      ensures !(r[i] == ' ' && r[i + 1] == ' ')
    {
      if i > 0 {
        var j := i - 1;
        assert r[i] == c[j] && r[i + 1] == c[j + 1];
      } else {
        assert r[0] == h && r[1] == c[0];
      }
    }
  }

  /** Collapsing ASCII text leaves ASCII text. */
  lemma {:induction false} CollapseAscii(s: string)
    requires AllAscii(s)
    ensures AllAscii(CollapseSpaces(s))
    decreases |s|
  {
    if s != [] {
      var rest := if IsSpace(s[0]) then LStrip(s) else s[1..];
      var h := if IsSpace(s[0]) then ' ' else s[0];
      assert AllAscii(rest);
      CollapseAscii(rest);
      assert CollapseSpaces(s) == [h] + CollapseSpaces(rest);
    }
  }

  /** Collapsing ASCII text leaves it single-spaced. */
  lemma CollapseSingleSpaced(s: string)
    requires AllAscii(s)
    ensures SingleSpaced(CollapseSpaces(s))
  {
    CollapseOnlySpaces(s);
    CollapseNoDoubleSpace(s);
    CollapseAscii(s);
  }

  /** `clean_text(text)` (preprocess.py:21-25). */
  function CleanText(s: string): string
  {
    Strip(CollapseSpaces(DropNonAscii(s)))
  }

  predicate AllAscii(s: string)
  {
    forall i :: 0 <= i < |s| ==> IsAscii(s[i])
  }

  /**
   * What `clean_text` produces: ASCII only, no whitespace but single
   * spaces, and no space at either end.
   */
  predicate Canonical(t: string)
  {
    SingleSpaced(t) && (t == [] || (t[0] != ' ' && t[|t| - 1] != ' '))
  }

  /** ASCII, and every whitespace is a lone space. */
  predicate SingleSpaced(t: string)
  {
    && AllAscii(t)
    && PlainSpaces(t)
    && NoDoubleSpace(t)
  }

  /** The only whitespace is the plain space. */
  predicate PlainSpaces(t: string)
  {
    forall i :: 0 <= i < |t| ==> IsSpace(t[i]) ==> t[i] == ' '
  }

  /** No two spaces are adjacent. */
  predicate NoDoubleSpace(t: string)
  {
    forall i :: 0 <= i < |t| - 1 ==> !(t[i] == ' ' && t[i + 1] == ' ')
  }

  lemma SingleSpacedSlice(t: string, a: nat, b: nat)
    requires a <= b <= |t| && SingleSpaced(t)
    ensures SingleSpaced(t[a..b])
  {
    var u := t[a..b];
    assert forall i :: 0 <= i < |u| ==> u[i] == t[a + i];
  }

  /** The printable content of a string: its non-whitespace ASCII characters, in order. */
  function Visible(s: string): string
  {
    if s == [] then []
    else (if IsAscii(s[0]) && !IsSpace(s[0]) then [s[0]] else []) + Visible(s[1..])
  }

  lemma {:induction false} DropNonAsciiIsAscii(s: string)
    ensures AllAscii(DropNonAscii(s))
  {
    if s != [] {
      DropNonAsciiIsAscii(s[1..]);
    }
  }

  /** The output of `clean_text` is canonical: ASCII, single inner spaces, trimmed. */
  lemma CleanTextCanonical(s: string)
    ensures Canonical(CleanText(s))
  {
    var d := DropNonAscii(s);
    DropNonAsciiIsAscii(s);
    CollapseSingleSpaced(d);
    StripCanonical(CollapseSpaces(d));
  }

  /** Trimming a single-spaced string makes it canonical. */
  lemma StripCanonical(c: string)
    requires SingleSpaced(c)
    ensures Canonical(Strip(c))
  {
    var k := StripStart(c);
    SingleSpacedSlice(c, k, k + |Strip(c)|);
  }

  lemma {:induction false} DropNonAsciiOfAscii(s: string)
    requires AllAscii(s)
    ensures DropNonAscii(s) == s
  {
    if s != [] {
      DropNonAsciiOfAscii(s[1..]);
    }
  }

  lemma {:induction false} CollapseSingleSpaces(s: string)
    requires forall i :: 0 <= i < |s| ==> IsSpace(s[i]) ==> s[i] == ' '
    requires forall i :: 0 <= i < |s| - 1 ==> !(s[i] == ' ' && s[i + 1] == ' ')
    ensures CollapseSpaces(s) == s
    decreases |s|
  {
    if s != [] {
      CollapseSingleSpaces(s[1..]);
      if IsSpace(s[0]) {
        assert LStrip(s) == LStrip(s[1..]);
        assert s[1..] == [] || !IsSpace(s[1]);
        assert LStrip(s[1..]) == s[1..];
        assert s == " " + s[1..];
      } else {
        assert s == [s[0]] + s[1..];
      }
    }
  }

  /** A canonical string is left alone by `clean_text`. */
  lemma CleanTextOfCanonical(t: string)
    requires Canonical(t)
    ensures CleanText(t) == t
  {
    DropNonAsciiOfAscii(t);
    CollapseSingleSpaces(t);
    StripOfTrimmed(t);
  }

  /** `clean_text` is idempotent. */
  lemma CleanTextIdempotent(s: string)
    ensures CleanText(CleanText(s)) == CleanText(s)
  {
    CleanTextCanonical(s);
    CleanTextOfCanonical(CleanText(s));
  }

  lemma {:induction false} VisibleConcat(a: string, b: string)
    ensures Visible(a + b) == Visible(a) + Visible(b)
  {
    if a == [] {
      assert a + b == b;
    } else {
      assert (a + b)[0] == a[0];
      assert (a + b)[1..] == a[1..] + b;
      VisibleConcat(a[1..], b);
    }
  }

  lemma {:induction false} VisibleDropNonAscii(s: string)
    ensures Visible(DropNonAscii(s)) == Visible(s)
  {
    if s != [] {
      VisibleDropNonAscii(s[1..]);
      var head := if IsAscii(s[0]) then [s[0]] else [];
      VisibleConcat(head, DropNonAscii(s[1..]));
    }
  }

  lemma {:induction false} VisibleCollapse(s: string)
    ensures Visible(CollapseSpaces(s)) == Visible(s)
    decreases |s|
  {
    if s != [] {
      if IsSpace(s[0]) {
        VisibleCollapse(LStrip(s));
        VisibleCollapseSpace(s);
      } else {
        VisibleCollapse(s[1..]);
        VisibleCollapseChar(s);
      }
    }
  }

  /** The step of `VisibleCollapse` at a whitespace run. */
  lemma VisibleCollapseSpace(s: string)
    requires s != [] && IsSpace(s[0])
    requires Visible(CollapseSpaces(LStrip(s))) == Visible(LStrip(s))
    ensures Visible(CollapseSpaces(s)) == Visible(s)
  {
    var c := CollapseSpaces(LStrip(s));
    assert CollapseSpaces(s) == " " + c;
    VisibleConcat(" ", c);
    assert Visible(" ") == [];
    VisibleLStrip(s);
  }

  /** The step of `VisibleCollapse` at any other character. */
  lemma VisibleCollapseChar(s: string)
    requires s != [] && !IsSpace(s[0])
    requires Visible(CollapseSpaces(s[1..])) == Visible(s[1..])
    ensures Visible(CollapseSpaces(s)) == Visible(s)
  {
    var c := CollapseSpaces(s[1..]);
    assert CollapseSpaces(s) == [s[0]] + c;
    VisibleConcat([s[0]], c);
  }

  lemma {:induction false} VisibleLStrip(s: string)
    ensures Visible(LStrip(s)) == Visible(s)
  {
    if s != [] && IsSpace(s[0]) {
      VisibleLStrip(s[1..]);
    }
  }

  lemma {:induction false} VisibleRStrip(s: string)
    ensures Visible(RStrip(s)) == Visible(s)
  {
    if s != [] && IsSpace(s[|s| - 1]) {
      var init := s[..|s| - 1];
      VisibleRStrip(init);
      assert s == init + [s[|s| - 1]];
      VisibleConcat(init, [s[|s| - 1]]);
    }
  }

  lemma VisibleStrip(s: string)
    ensures Visible(Strip(s)) == Visible(s)
  {
    VisibleLStrip(s);
    VisibleRStrip(LStrip(s));
  }

  /**
   * `clean_text` keeps every non-whitespace ASCII character of its input,
   * in order, and nothing else printable.
   */
  lemma CleanTextKeepsVisible(s: string)
    ensures Visible(CleanText(s)) == Visible(s)
  {
    VisibleDropNonAscii(s);
    VisibleCollapse(DropNonAscii(s));
    VisibleStrip(CollapseSpaces(DropNonAscii(s)));
  }

  /** The empty text stays empty, and a whitespace-only text becomes empty. */
  lemma CleanTextOfBlank(s: string)
    requires forall i :: 0 <= i < |s| ==> IsSpace(s[i])
    ensures CleanText(s) == ""
  {
    DropNonAsciiOfAscii(s);
    if s != [] {
      assert LStrip(s) == [];
      assert CollapseSpaces(s) == " ";
    }
  }

  // ---------------------------------------------------------------------
  // Collapsing and the word split agree

  lemma CollapseHead(t: string)
    requires t != [] && !IsSpace(t[0])
    ensures CollapseSpaces(t) == [t[0]] + CollapseSpaces(t[1..])
  {
  }

  /** A run of non-space characters at the front is copied as it is. */
  lemma CollapseWordPrefix(t: string, n: nat)
    requires n <= |t| && NoSpace(t[..n])
    ensures CollapseSpaces(t) == t[..n] + CollapseSpaces(t[n..])
  {
    CollapseConcat(t[..n], t[n..]);
    TakeDrop(t, n);
  }

  /** A word in front of `y` is copied as it is. */
  lemma {:induction false} CollapseConcat(w: string, y: string)
    requires NoSpace(w)
    ensures CollapseSpaces(w + y) == w + CollapseSpaces(y)
    decreases |w|
  {
    if w == [] {
      assert w + y == y;
    } else {
      assert NoSpace(w[1..]) by {
        assert forall i :: 0 <= i < |w[1..]| ==> w[1..][i] == w[i + 1];
      }
      CollapseConcat(w[1..], y);
      CollapseConcatStep(w, y);
    }
  }

  /** One character of `CollapseConcat`, given the rest of the word. */
  lemma CollapseConcatStep(w: string, y: string)
    requires w != [] && NoSpace(w)
    requires CollapseSpaces(w[1..] + y) == w[1..] + CollapseSpaces(y)
    ensures CollapseSpaces(w + y) == w + CollapseSpaces(y)
  {
    ConcatHead(w, y);
    CollapseHead(w + y);
    Regroup([w[0]], w[1..], CollapseSpaces(y));
    HeadTail(w);
  }

  /** A string of whitespace only collapses to nothing or to one space. */
  lemma CollapseBlank(u: string)
    requires LStrip(u) == []
    ensures CollapseSpaces(u) == [] || CollapseSpaces(u) == " "
  {
  }

  /** The last word, with whatever whitespace follows it. */
  lemma LastWordCollapse(w: string, u: string)
    requires w != [] && NoSpace(w) && LStrip(u) == []
    ensures Strip(w + CollapseSpaces(u)) == w
  {
    CollapseBlank(u);
    StripOfWord(w, CollapseSpaces(u));
  }

  /** A word followed by more words: the space between them survives the strip. */
  lemma InnerWordCollapse(w: string, u: string)
    requires w != [] && NoSpace(w) && u != [] && IsSpace(u[0]) && LStrip(u) != []
    ensures Strip(w + CollapseSpaces(u)) == w + " " + Strip(CollapseSpaces(u))
  {
    var c := CollapseSpaces(LStrip(u));
    assert CollapseSpaces(u) == " " + c;
    StripSpaceFront(c);
    assert (w + " ")[0] == w[0];
    StripAppend(w + " ", c);
    Regroup(w, " ", c);
  }

  /** Leading whitespace changes neither the collapsed-and-stripped text nor the words. */
  lemma LeadingBlankIgnored(s: string)
    ensures Strip(CollapseSpaces(s)) == Strip(CollapseSpaces(LStrip(s)))
    ensures Words(s) == Words(LStrip(s))
  {
    var t := LStrip(s);
    assert LStrip(t) == t;
    if s != [] && IsSpace(s[0]) {
      assert CollapseSpaces(s) == " " + CollapseSpaces(t);
      StripSpaceFront(CollapseSpaces(t));
    }
  }

  /** A string that starts with a non-space starts with its first word. */
  lemma WordsHead(t: string, n: nat)
    requires t != [] && !IsSpace(t[0]) && n == WordLength(t)
    ensures n > 0 && NoSpace(t[..n])
    ensures Words(t) == [t[..n]] + Words(t[n..])
  {
    assert LStrip(t) == t;
  }

  /** The agreement for a string holding a single word. */
  lemma WordStepLast(t: string, n: nat)
    requires t != [] && !IsSpace(t[0]) && n == WordLength(t) && LStrip(t[n..]) == []
    ensures Join(Words(t), " ") == Strip(CollapseSpaces(t))
  {
    WordsHead(t, n);
    assert Words(t[n..]) == [];
    assert Words(t) == [t[..n]];
    CollapseWordPrefix(t, n);
    LastWordCollapse(t[..n], t[n..]);
  }

  /** One word of the agreement, given the agreement on the words after it. */
  lemma WordStepInner(t: string, n: nat)
    requires t != [] && !IsSpace(t[0]) && n == WordLength(t) && LStrip(t[n..]) != []
    requires Join(Words(t[n..]), " ") == Strip(CollapseSpaces(t[n..]))
    ensures Join(Words(t), " ") == Strip(CollapseSpaces(t))
  {
    var w := t[..n];
    var u := t[n..];
    WordsHead(t, n);
    assert Words(u) != [];
    JoinCons(w, Words(u), " ");
    CollapseWordPrefix(t, n);
    InnerWordCollapse(w, u);
  }

  /**
   * The words of `s`, joined with single spaces, are `s` with every
   * whitespace run collapsed and both ends trimmed: the word split and the
   * collapsing normaliser see the same words in the same order.
   */
  lemma {:induction false} WordsJoinCollapse(s: string)
    ensures Join(Words(s), " ") == Strip(CollapseSpaces(s))
    decreases |s|
  {
    LeadingBlankIgnored(s);
    var t := LStrip(s);
    if t != [] {
      var n := WordLength(t);
      assert n > 0;
      if LStrip(t[n..]) == [] {
        WordStepLast(t, n);
      } else {
        WordsJoinCollapse(t[n..]);
        WordStepInner(t, n);
      }
    }
  }
}

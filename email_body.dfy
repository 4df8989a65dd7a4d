/**
 * `extract_body` from the e-mail utilities. MIME walking, payload decoding,
 * HTML unescaping and BeautifulSoup are library calls: a `MimePart` carries
 * the text they produce. What is modelled is the choice of parts and the
 * whitespace normalisation that ends the function; `\s` and `str.strip()`
 * use Python's own whitespace set (`str.isspace`).
 */
module EmailBody {
  import opened Strings
  import opened Mail
  // ---------------------------------------------------------------------------
  // extract_body: the whitespace normalisation of the joined text parts
  // ---------------------------------------------------------------------------

  /** `str.isspace()`; `\s` and `str.strip()` use the same set. */
  predicate IsSpace(c: char) {
    var k := c as int;
    (0x09 <= k <= 0x0D) || (0x1C <= k <= 0x20) || k == 0x85 || k == 0xA0 || k == 0x1680
    || (0x2000 <= k <= 0x200A) || k == 0x2028 || k == 0x2029 || k == 0x202F || k == 0x205F || k == 0x3000
  }

  predicate IsBackslash(c: char) {
    c == '\\'
  }

  predicate IsLineBreakOrTab(c: char) {
    c == '\r' || c == '\n' || c == '\t'
  }

  /** The characters the normalisation treats as word separators. */
  predicate IsSeparator(c: char) {
    IsSpace(c) || IsBackslash(c)
  }

  /** `re.sub(r'[...]+', ' ', s)` for the class `p`: each maximal run of `p` characters becomes one space. */
  function Collapse(s: string, p: char -> bool): string
    decreases |s|
  {
    if s == [] then []
    else if p(s[0]) then " " + Collapse(s[SpanLength(s, p)..], p)
    else [s[0]] + Collapse(s[1..], p)
  }

  lemma UnfoldCollapseRun(s: string, p: char -> bool)
    requires s != [] && p(s[0])
    ensures Collapse(s, p) == " " + Collapse(s[SpanLength(s, p)..], p)
  {
  }

  lemma UnfoldCollapseChar(s: string, p: char -> bool)
    requires s != [] && !p(s[0])
    ensures Collapse(s, p) == [s[0]] + Collapse(s[1..], p)
  {
  }

  /** Collapsing writes only spaces and characters of its input outside the class. */
  lemma {:induction false} CollapseChars(s: string, p: char -> bool)
    ensures forall x :: x in Collapse(s, p) ==> x == ' ' || (x in s && !p(x))
    decreases |s|
  {
    if s != [] {
      if p(s[0]) {
        var n := SpanLength(s, p);
        UnfoldCollapseRun(s, p);
        CollapseChars(s[n..], p);
        assert forall x :: x in s[n..] ==> x in s;
      } else {
        UnfoldCollapseChar(s, p);
        CollapseChars(s[1..], p);
        assert forall x :: x in s[1..] ==> x in s;
      }
    }
  }

  /** No two neighbouring characters both satisfy `p`. */
  predicate NoAdjacent(s: string, p: char -> bool) {
    forall i :: 0 <= i && i + 1 < |s| ==> !(p(s[i]) && p(s[i + 1]))
  }

  lemma NoAdjacentCons(c: char, t: string, p: char -> bool)
    requires NoAdjacent(t, p)
    requires !p(c) || t == [] || !p(t[0])
    ensures NoAdjacent([c] + t, p)
  {
    var s := [c] + t;
    forall i | 0 <= i && i + 1 < |s|
      ensures !(p(s[i]) && p(s[i + 1]))
    {
      if i > 0 {
        assert s[i] == t[i - 1] && s[i + 1] == t[i];
      }
    }
  }

  /** After collapsing the class of the space character, no two characters of the class are neighbours. */
  lemma {:induction false} CollapseNoAdjacent(s: string, p: char -> bool)
    requires p(' ')
    ensures NoAdjacent(Collapse(s, p), p)
    decreases |s|
  {
    if s != [] {
      if p(s[0]) {
        var rest := s[SpanLength(s, p)..];
        UnfoldCollapseRun(s, p);
        CollapseNoAdjacent(rest, p);
        if rest != [] {
          UnfoldCollapseChar(rest, p);
        }
        NoAdjacentCons(' ', Collapse(rest, p), p);
      } else {
        UnfoldCollapseChar(s, p);
        CollapseNoAdjacent(s[1..], p);
        NoAdjacentCons(s[0], Collapse(s[1..], p), p);
      }
    }
  }

  /** Text without characters of the class is left alone. */
  lemma {:induction false} CollapseIdentity(s: string, p: char -> bool)
    requires forall i :: 0 <= i < |s| ==> !p(s[i])
    ensures Collapse(s, p) == s
    decreases |s|
  {
    if s != [] {
      UnfoldCollapseChar(s, p);
      CollapseIdentity(s[1..], p);
      assert s == [s[0]] + s[1..];
    }
  }

  /** Text whose only whitespace is single spaces is left alone by the whitespace pass. */
  lemma {:induction false} CollapseSpacesIdentity(s: string)
    requires forall i :: 0 <= i < |s| && IsSpace(s[i]) ==> s[i] == ' '
    requires NoAdjacent(s, IsSpace)
    ensures Collapse(s, IsSpace) == s
    decreases |s|
  {
    if s != [] {
      assert NoAdjacent(s[1..], IsSpace) by {
        forall i | 0 <= i && i + 1 < |s[1..]|
          ensures !(IsSpace(s[1..][i]) && IsSpace(s[1..][i + 1]))
        {
          assert s[1..][i] == s[i + 1] && s[1..][i + 1] == s[i + 2];
        }
      }
      if IsSpace(s[0]) {
        assert |s| > 1 ==> !IsSpace(s[1]);
        assert SpanLength(s, IsSpace) == 1;
        UnfoldCollapseRun(s, IsSpace);
      } else {
        UnfoldCollapseChar(s, IsSpace);
      }
      CollapseSpacesIdentity(s[1..]);
      assert s == [s[0]] + s[1..];
    }
  }

  /** The non-separator characters of `s`, in order: the words the normalisation must keep. */
  function Visible(s: string): string {
    Filter(s, IsSeparator)
  }

  lemma VisibleAppend(a: string, b: string)
    ensures Visible(a + b) == Visible(a) + Visible(b)
  {
    FilterAppend(a, b, IsSeparator);
  }

  lemma VisibleOfSeparators(s: string)
    requires forall i :: 0 <= i < |s| ==> IsSeparator(s[i])
    ensures Visible(s) == []
  {
    FilterAll(s, IsSeparator);
  }

  /** Collapsing a class of separators keeps every word character, in order. */
  lemma {:induction false} CollapseVisible(s: string, p: char -> bool)
    requires forall c :: p(c) ==> IsSeparator(c)
    ensures Visible(Collapse(s, p)) == Visible(s)
    decreases |s|
  {
    if s != [] {
      if p(s[0]) {
        var n := SpanLength(s, p);
        UnfoldCollapseRun(s, p);
        CollapseVisible(s[n..], p);
        VisibleAppend(" ", Collapse(s[n..], p));
        assert s == s[..n] + s[n..];
        VisibleAppend(s[..n], s[n..]);
        VisibleOfSeparators(s[..n]);
      } else {
        UnfoldCollapseChar(s, p);
        CollapseVisible(s[1..], p);
        VisibleAppend([s[0]], Collapse(s[1..], p));
        assert s == [s[0]] + s[1..];
        VisibleAppend([s[0]], s[1..]);
      }
    }
  }

  /** Number of whitespace characters that end `s`. */
  function TrailingSpaces(s: string): (n: nat)
    ensures n <= |s|
    ensures forall i :: |s| - n <= i < |s| ==> IsSpace(s[i])
    ensures n < |s| ==> !IsSpace(s[|s| - n - 1])
  {
    if s == [] || !IsSpace(s[|s| - 1]) then 0 else 1 + TrailingSpaces(s[..|s| - 1])
  }

  /** `s.strip()`. */
  function Strip(s: string): (r: string)
    ensures |r| > 0 ==> !IsSpace(r[0]) && !IsSpace(r[|r| - 1])
    ensures |r| <= |s|
  {
    var t := s[SpanLength(s, IsSpace)..];
    t[..|t| - TrailingSpaces(t)]
  }

  /** `Strip(s)` is the slice `s[i..j]` with whitespace only before `i` and from `j` on. */
  predicate StrippedAt(s: string, i: nat, j: nat) {
    && i <= j <= |s|
    && Strip(s) == s[i..j]
    && (forall k :: 0 <= k < i ==> IsSpace(s[k]))
    && (forall k :: j <= k < |s| ==> IsSpace(s[k]))
  }

  /** Stripping removes whitespace only at the two ends. */
  lemma StripSlices(s: string) returns (i: nat, j: nat)
    ensures StrippedAt(s, i, j)
  {
    i := SpanLength(s, IsSpace);
    var t := s[i..];
    var m := TrailingSpaces(t);
    j := |s| - m;
    assert Strip(s) == s[i..j];
    assert forall k :: j <= k < |s| ==> s[k] == t[k - i];
  }

  /** Stripping keeps the words. */
  lemma StripKeepsWords(s: string)
    ensures Visible(Strip(s)) == Visible(s)
  {
    var i, j := StripSlices(s);
    SliceVisible(s, i, j);
  }

  /** Stripping only drops characters. */
  lemma StripKeepsChars(s: string)
    ensures forall x :: x in Strip(s) ==> x in s
  {
    var i, j := StripSlices(s);
    assert forall k :: 0 <= k < j - i ==> s[i..j][k] == s[i + k];
  }

  /** What stripping keeps has no adjacent whitespace if the input had none. */
  lemma StripKeepsNoAdjacent(s: string)
    requires NoAdjacent(s, IsSpace)
    ensures NoAdjacent(Strip(s), IsSpace)
  {
    var i, j := StripSlices(s);
    assert forall k :: 0 <= k < j - i ==> s[i..j][k] == s[i + k];
  }

  /** Cutting separators off both ends keeps the words. */
  lemma SliceVisible(s: string, i: nat, j: nat)
    requires i <= j <= |s|
    requires forall k :: 0 <= k < i ==> IsSpace(s[k])
    requires forall k :: j <= k < |s| ==> IsSpace(s[k])
    ensures Visible(s[i..j]) == Visible(s)
  {
    var t := s[..j];
    assert Visible(s[i..j]) == Visible(t) by {
      assert t[i..] == s[i..j];
      DropSpaces(t, i);
    }
    assert Visible(t) == Visible(s) by {
      assert s == t + s[j..];
      VisibleAppend(t, s[j..]);
      SpacesInvisible(s[j..]);
    }
  }

  /** Leading whitespace is invisible. */
  lemma DropSpaces(s: string, i: nat)
    requires i <= |s|
    requires forall k :: 0 <= k < i ==> IsSpace(s[k])
    ensures Visible(s[i..]) == Visible(s)
  {
    assert s == s[..i] + s[i..];
    VisibleAppend(s[..i], s[i..]);
    SpacesInvisible(s[..i]);
  }

  /** Whitespace is invisible. */
  lemma SpacesInvisible(s: string)
    requires forall k :: 0 <= k < |s| ==> IsSpace(s[k])
    ensures Visible(s) == []
  {
    assert forall k :: 0 <= k < |s| ==> IsSeparator(s[k]);
    VisibleOfSeparators(s);
  }

  /** Text that neither starts nor ends with whitespace is not changed by `strip()`. */
  lemma StripIdentity(s: string)
    requires |s| > 0 ==> !IsSpace(s[0]) && !IsSpace(s[|s| - 1])
    ensures Strip(s) == s
  {
  }

  /** The tail of `extract_body`: join with spaces, turn backslash runs, line-break runs and whitespace runs into single spaces, strip. */
  function NormalizeBody(texts: seq<string>): (r: string)
    ensures texts == [] ==> |r| == 0
    ensures forall x :: x in r ==> x == ' ' || !IsSeparator(x)
    ensures NoAdjacent(r, IsSpace)
    ensures |r| > 0 ==> !IsSpace(r[0]) && !IsSpace(r[|r| - 1])
  {
    var joined := JoinWith(" ", texts);
    var s1 := Collapse(joined, IsBackslash);
    var s2 := Collapse(s1, IsLineBreakOrTab);
    var s3 := Collapse(s2, IsSpace);
    CollapseChars(joined, IsBackslash);
    CollapseChars(s1, IsLineBreakOrTab);
    CollapseChars(s2, IsSpace);
    CollapseNoAdjacent(s2, IsSpace);
    StripKeepsChars(s3);
    StripKeepsNoAdjacent(s3);
    Strip(s3)
  }

  /** The normalisation drops separators only: every other character of the joined parts survives, in order. */
  lemma NormalizeBodyKeepsWords(texts: seq<string>)
    ensures Visible(NormalizeBody(texts)) == Visible(JoinWith(" ", texts))
  {
    var joined := JoinWith(" ", texts);
    var s1 := Collapse(joined, IsBackslash);
    var s2 := Collapse(s1, IsLineBreakOrTab);
    var s3 := Collapse(s2, IsSpace);
    CollapseVisible(joined, IsBackslash);
    CollapseVisible(s1, IsLineBreakOrTab);
    CollapseVisible(s2, IsSpace);
    StripKeepsWords(s3);
  }

  /** What `NormalizeBody` produces: single spaces between words, no other separator, nothing at the ends. */
  predicate Normalized(s: string) {
    && (forall x :: x in s ==> x == ' ' || !IsSeparator(x))
    && NoAdjacent(s, IsSpace)
    && (|s| > 0 ==> !IsSpace(s[0]) && !IsSpace(s[|s| - 1]))
  }

  /** Normalised text comes back unchanged. */
  lemma NormalizedUnchanged(s: string)
    requires Normalized(s)
    ensures NormalizeBody([s]) == s
  {
    assert forall i :: 0 <= i < |s| ==> s[i] in s;
    CollapseIdentity(s, IsBackslash);
    CollapseIdentity(s, IsLineBreakOrTab);
    CollapseSpacesIdentity(s);
    StripIdentity(s);
  }

  /** Normalising the body twice is the same as normalising it once. */
  lemma NormalizeBodyIdempotent(texts: seq<string>)
    ensures NormalizeBody([NormalizeBody(texts)]) == NormalizeBody(texts)
  {
    NormalizedUnchanged(NormalizeBody(texts));
  }

  /** The words of `s`: its maximal runs of characters that are not separators, in order. */
  function Words(s: string): (r: seq<string>)
    ensures s != [] && !IsSeparator(s[0]) ==> |r| > 0
    decreases |s|
  {
    if s == [] then []
    else
      var rest := Words(s[1..]);
      if IsSeparator(s[0]) then rest
      else if |s| > 1 && !IsSeparator(s[1]) then [[s[0]] + rest[0]] + rest[1..]
      else [[s[0]]] + rest
  }

  /** How one more character in front changes the words: a separator adds nothing, a word character starts the first word or joins it. */
  lemma WordsCons(c: char, t: string)
    ensures Words([c] + t) ==
      if IsSeparator(c) then Words(t)
      else if t != [] && !IsSeparator(t[0]) then [[c] + Words(t)[0]] + Words(t)[1..]
      else [[c]] + Words(t)
  {
    assert ([c] + t)[1..] == t;
  }

  /** Every word is non-empty and holds no separator. */
  lemma {:induction false} WordsShape(s: string)
    ensures forall i :: 0 <= i < |Words(s)| ==> |Words(s)[i]| > 0
    ensures forall i, k :: 0 <= i < |Words(s)| && 0 <= k < |Words(s)[i]| ==> !IsSeparator(Words(s)[i][k])
    decreases |s|
  {
    if s != [] {
      var t := s[1..];
      WordsShape(t);
      WordsCons(s[0], t);
      assert s == [s[0]] + t;
      var w := Words(t);
      if !IsSeparator(s[0]) && t != [] && !IsSeparator(t[0]) {
        var r := Words(s);
        assert r[0] == [s[0]] + w[0];
        forall i | 0 < i < |r|
          ensures r[i] == w[i]
        {
        }
      }
    }
  }

  /** The words, run together, are exactly the non-separator characters. */
  lemma {:induction false} WordsVisible(s: string)
    ensures JoinWith("", Words(s)) == Visible(s)
    decreases |s|
  {
    if s != [] {
      var t := s[1..];
      var w := Words(t);
      WordsVisible(t);
      WordsCons(s[0], t);
      assert s == [s[0]] + t;
      if !IsSeparator(s[0]) {
        if t != [] && !IsSeparator(t[0]) {
          JoinHead(s[0], w, "");
        } else if w != [] {
          JoinCons([s[0]], w, "");
        }
      }
    }
  }

  /** Joining after growing the first item by one character in front. */
  lemma JoinHead(c: char, ws: seq<string>, sep: string)
    requires ws != []
    ensures JoinWith(sep, [[c] + ws[0]] + ws[1..]) == [c] + JoinWith(sep, ws)
  {
    var l := [[c] + ws[0]] + ws[1..];
    if |ws| > 1 {
      assert l[1..] == ws[1..];
      AppendAssoc([c], ws[0], sep + JoinWith(sep, ws[1..]));
    }
  }

  /** Joining an item in front of a non-empty list. */
  lemma JoinCons(w: string, ws: seq<string>, sep: string)
    requires ws != []
    ensures JoinWith(sep, [w] + ws) == w + sep + JoinWith(sep, ws)
  {
    assert ([w] + ws)[1..] == ws;
  }

  /** Separators in front do not change the words. */
  lemma {:induction false} WordsSepPrefix(a: string, x: string)
    requires forall i :: 0 <= i < |a| ==> IsSeparator(a[i])
    ensures Words(a + x) == Words(x)
    decreases |a|
  {
    if a == [] {
      assert a + x == x;
    } else {
      assert a + x == [a[0]] + (a[1..] + x);
      WordsCons(a[0], a[1..] + x);
      WordsSepPrefix(a[1..], x);
    }
  }

  /** Separators at the end do not change the words. */
  lemma {:induction false} WordsSepSuffix(x: string, b: string)
    requires forall i :: 0 <= i < |b| ==> IsSeparator(b[i])
    ensures Words(x + b) == Words(x)
    decreases |x|
  {
    if x == [] {
      assert x + b == b + [];
      WordsSepPrefix(b, []);
    } else {
      var t := x[1..];
      assert x + b == [x[0]] + (t + b);
      assert x == [x[0]] + t;
      WordsSepSuffix(t, b);
      WordsCons(x[0], t + b);
      WordsCons(x[0], t);
      assert (t + b != [] && !IsSeparator((t + b)[0])) == (t != [] && !IsSeparator(t[0]));
    }
  }

  /** Collapsing a class of separators into single spaces keeps the words. */
  lemma {:induction false} WordsCollapse(s: string, p: char -> bool)
    requires forall c :: p(c) ==> IsSeparator(c)
    ensures Words(Collapse(s, p)) == Words(s)
    decreases |s|, 1
  {
    if s != [] {
      if p(s[0]) {
        WordsCollapseRun(s, p);
      } else {
        WordsCollapseChar(s, p);
      }
    }
  }

  lemma {:induction false} WordsCollapseRun(s: string, p: char -> bool)
    requires forall c :: p(c) ==> IsSeparator(c)
    requires s != [] && p(s[0])
    ensures Words(Collapse(s, p)) == Words(s)
    decreases |s|, 0
  {
    var n := SpanLength(s, p);
    var rest := Collapse(s[n..], p);
    UnfoldCollapseRun(s, p);
    WordsCons(' ', rest);
    WordsCollapse(s[n..], p);
    assert s == s[..n] + s[n..];
    WordsSepPrefix(s[..n], s[n..]);
  }

  lemma {:induction false} WordsCollapseChar(s: string, p: char -> bool)
    requires forall c :: p(c) ==> IsSeparator(c)
    requires s != [] && !p(s[0])
    ensures Words(Collapse(s, p)) == Words(s)
    decreases |s|, 0
  {
    var t := s[1..];
    var c := Collapse(t, p);
    UnfoldCollapseChar(s, p);
    WordsCollapse(t, p);
    CollapseStartsWord(t, p);
    WordsCons(s[0], c);
    WordsCons(s[0], t);
    assert s == [s[0]] + t;
  }

  /** Collapsing keeps whether the text starts with a word character. */
  lemma CollapseStartsWord(t: string, p: char -> bool)
    requires forall c :: p(c) ==> IsSeparator(c)
    ensures (Collapse(t, p) != [] && !IsSeparator(Collapse(t, p)[0])) == (t != [] && !IsSeparator(t[0]))
  {
    if t != [] {
      if p(t[0]) {
        UnfoldCollapseRun(t, p);
      } else {
        UnfoldCollapseChar(t, p);
      }
    }
  }

  /** Stripping whitespace at the ends keeps the words. */
  lemma WordsStrip(s: string)
    ensures Words(Strip(s)) == Words(s)
  {
    var i, j := StripSlices(s);
    var mid := s[i..j];
    assert s == s[..i] + (mid + s[j..]);
    WordsSepPrefix(s[..i], mid + s[j..]);
    WordsSepSuffix(mid, s[j..]);
  }

  /** Normalised text is its own words joined by single spaces. */
  lemma {:induction false} NormalizedIsJoinedWords(t: string)
    requires Normalized(t)
    ensures JoinWith(" ", Words(t)) == t
    decreases |t|, 1
  {
    if t != [] {
      NormalizedStart(t);
      if |t| == 1 {
        WordsCons(t[0], []);
        assert t == [t[0]] + [];
      } else if !IsSeparator(t[1]) {
        JoinedWordsLetter(t);
      } else {
        JoinedWordsSpace(t);
      }
    }
  }

  /** Normalised text starts with a word character, and a separator after it is one space followed by a word character. */
  lemma NormalizedStart(t: string)
    requires Normalized(t) && t != []
    ensures !IsSeparator(t[0])
    ensures |t| > 1 && IsSeparator(t[1]) ==> t[1] == ' ' && |t| > 2 && !IsSeparator(t[2])
  {
    assert t[0] in t;
    if |t| > 1 && IsSeparator(t[1]) {
      assert t[1] in t;
      if |t| > 2 {
        assert t[2] in t;
        assert !(IsSpace(t[1]) && IsSpace(t[2]));
      }
    }
  }

  lemma {:induction false} JoinedWordsLetter(t: string)
    requires Normalized(t) && |t| > 1 && !IsSeparator(t[0]) && !IsSeparator(t[1])
    ensures JoinWith(" ", Words(t)) == t
    decreases |t|, 0
  {
    var x := t[1..];
    assert t == [t[0]] + x;
    WordsCons(t[0], x);
    NormalizedSuffix(t, 1);
    NormalizedIsJoinedWords(x);
    JoinHead(t[0], Words(x), " ");
  }

  lemma {:induction false} JoinedWordsSpace(t: string)
    requires Normalized(t) && |t| > 2 && !IsSeparator(t[0]) && t[1] == ' ' && !IsSeparator(t[2])
    ensures JoinWith(" ", Words(t)) == t
    decreases |t|, 0
  {
    var x := t[1..];
    var y := t[2..];
    assert t == [t[0]] + x;
    assert x == [' '] + y;
    WordsCons(t[0], x);
    WordsCons(' ', y);
    NormalizedSuffix(t, 2);
    NormalizedIsJoinedWords(y);
    JoinCons([t[0]], Words(y), " ");
  }

  /** A suffix of normalised text that does not start with a space is normalised. */
  lemma NormalizedSuffix(t: string, k: nat)
    requires Normalized(t) && k <= |t|
    requires k < |t| ==> !IsSpace(t[k])
    ensures Normalized(t[k..])
  {
    var y := t[k..];
    assert forall x :: x in y ==> x in t;
    assert forall i :: 0 <= i < |y| ==> y[i] == t[k + i];
  }

  /** The whole normalisation is determined by the words: it is the words of the joined parts, joined by single spaces. */
  lemma NormalizeBodyWords(texts: seq<string>)
    ensures NormalizeBody(texts) == JoinWith(" ", Words(JoinWith(" ", texts)))
  {
    var joined := JoinWith(" ", texts);
    var s1 := Collapse(joined, IsBackslash);
    var s2 := Collapse(s1, IsLineBreakOrTab);
    var s3 := Collapse(s2, IsSpace);
    WordsCollapse(joined, IsBackslash);
    WordsCollapse(s1, IsLineBreakOrTab);
    WordsCollapse(s2, IsSpace);
    WordsStrip(s3);
    NormalizedIsJoinedWords(NormalizeBody(texts));
  }

  // ---------------------------------------------------------------------------
  // extract_body: choosing the parts
  // ---------------------------------------------------------------------------

  /** A part of a multipart message whose text is kept: plain text or HTML with a non-empty payload. */
  predicate Selected(p: MimePart) {
    (p.contentType == "text/plain" || p.contentType == "text/html") && p.hasPayload
  }

  /** The texts of the selected parts, in `walk()` order. */
  function SelectedTexts(parts: seq<MimePart>): (r: seq<string>)
    ensures |r| <= |parts|
  {
    if parts == [] then []
    else SelectedTexts(parts[..|parts| - 1]) + (if Selected(parts[|parts| - 1]) then [parts[|parts| - 1].text] else [])
  }

  /** One part is kept exactly when it is selected. */
  lemma SelectedTextsSingle(p: MimePart)
    ensures SelectedTexts([p]) == if Selected(p) then [p.text] else []
  {
    assert [p][..0] == [];
  }

  /** Choosing works part by part, in `walk()` order: the texts of a concatenation are those of the first piece followed by those of the second. */
  lemma {:induction false} SelectedTextsAppend(a: seq<MimePart>, b: seq<MimePart>)
    ensures SelectedTexts(a + b) == SelectedTexts(a) + SelectedTexts(b)
    decreases |b|
  {
    if b == [] {
      assert a + b == a;
    } else {
      var ab := a + b;
      assert ab[..|ab| - 1] == a + b[..|b| - 1];
      assert ab[|ab| - 1] == b[|b| - 1];
      SelectedTextsAppend(a, b[..|b| - 1]);
    }
  }

  /** A text is kept exactly when some selected part carries it. */
  lemma {:induction false} SelectedTextsMembers(parts: seq<MimePart>, t: string)
    ensures t in SelectedTexts(parts) <==> exists i :: 0 <= i < |parts| && Selected(parts[i]) && parts[i].text == t
    decreases |parts|
  {
    if parts != [] {
      var init := parts[..|parts| - 1];
      SelectedTextsMembers(init, t);
      assert forall i :: 0 <= i < |init| ==> init[i] == parts[i];
    }
  }

  /** The texts `extract_body` joins: the selected parts of a multipart message, or a single part's payload when it is non-empty. */
  function BodyTexts(body: MessageBody): seq<string> {
    match body
    case Multipart(parts) => SelectedTexts(parts)
    case Singlepart(part) => if part.hasPayload then [part.text] else []
  }

  /**
   * A single-part message keeps its payload whatever its content type, while
   * a multipart message with the same one part keeps it only when it is plain
   * text or HTML.
   */
  lemma SinglePartAnyType(part: MimePart)
    ensures BodyTexts(Singlepart(part)) == if part.hasPayload then [part.text] else []
    ensures BodyTexts(Multipart([part])) == if Selected(part) then [part.text] else []
    ensures forall t :: BodyTexts(Singlepart(part.(contentType := t))) == BodyTexts(Singlepart(part))
  {
    SelectedTextsSingle(part);
  }

  /** `extract_body`: collects the texts part by part, then normalises their join. */
  method ExtractBody(body: MessageBody) returns (r: string)
    ensures r == NormalizeBody(BodyTexts(body))
    ensures Normalized(r)
  {
    var texts: seq<string> := [];
    match body {
      case Multipart(parts) =>
        for i := 0 to |parts|
          invariant texts == SelectedTexts(parts[..i])
        {
          assert parts[..i + 1][..i] == parts[..i];
          var part := parts[i];
          if part.contentType == "text/plain" || part.contentType == "text/html" {
            if part.hasPayload {
              texts := texts + [part.text];
            }
          }
        }
        assert parts[..|parts|] == parts;
      case Singlepart(part) =>
        if part.hasPayload {
          texts := [part.text];
        }
    }
    r := NormalizeBody(texts);
  }
}

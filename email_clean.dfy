/**
 * `clean_text` from the e-mail utilities: prepares a string for the
 * vectoriser and for spreadsheet export. Character classes follow ASCII for
 * `\d`, `\w` and `\b`.
 */
module EmailClean {
  import opened Wrappers
  import opened Strings
  // ---------------------------------------------------------------------------
  // clean_text
  // ---------------------------------------------------------------------------

  /** An argument of `clean_text`: a `str`, or any other Python object (None, a NaN cell, a Header). */
  datatype Value = Str(text: string) | NonStr(id: nat)

  /** Longest cell text that is kept (Excel's cell limit). */
  const MaxCellLength: nat := 32767

  /** The currency pass: the dollar, pound and euro signs become words, in that order. */
  function ReplaceCurrency(s: string): (r: string)
    ensures '$' !in r && '\U{A3}' !in r && '\U{20AC}' !in r
  {
    var d := ReplaceChar(s, '$', " dollar ");
    var p := ReplaceChar(d, '\U{A3}', " pound ");
    ReplaceCharChars(d, '\U{A3}', " pound ");
    ReplaceCharChars(p, '\U{20AC}', " euro ");
    ReplaceChar(p, '\U{20AC}', " euro ")
  }

  lemma ReplaceCurrencyAbsent(s: string)
    requires '$' !in s && '\U{A3}' !in s && '\U{20AC}' !in s
    ensures ReplaceCurrency(s) == s
  {
    ReplaceCharAbsent(s, '$', " dollar ");
    ReplaceCharAbsent(s, '\U{A3}', " pound ");
    ReplaceCharAbsent(s, '\U{20AC}', " euro ");
  }

  /** The currency pass works character by character. */
  lemma CurrencyAppend(a: string, b: string)
    ensures ReplaceCurrency(a + b) == ReplaceCurrency(a) + ReplaceCurrency(b)
  {
    var d1 := ReplaceChar(a, '$', " dollar ");
    var d2 := ReplaceChar(b, '$', " dollar ");
    ReplaceCharAppend(a, b, '$', " dollar ");
    var p1 := ReplaceChar(d1, '\U{A3}', " pound ");
    var p2 := ReplaceChar(d2, '\U{A3}', " pound ");
    ReplaceCharAppend(d1, d2, '\U{A3}', " pound ");
    ReplaceCharAppend(p1, p2, '\U{20AC}', " euro ");
  }

  /** Each currency sign becomes its word, padded with spaces; any other character is kept. */
  lemma CurrencyWords(x: char)
    ensures ReplaceCurrency([x]) == if x == '$' then " dollar " else if x == '\U{A3}' then " pound " else if x == '\U{20AC}' then " euro " else [x]
  {
    if x == '$' {
      CurrencyDollar();
    } else if x == '\U{A3}' {
      CurrencyPound();
    } else if x == '\U{20AC}' {
      CurrencyEuro();
    } else {
      CurrencyOther(x);
    }
  }

  lemma CurrencyDollar()
    ensures ReplaceCurrency("$") == " dollar "
  {
    var d := " dollar ";
    ReplaceCharSingle('$', '$', d);
    assert '\U{A3}' !in d && '\U{20AC}' !in d;
    ReplaceCharAbsent(d, '\U{A3}', " pound ");
    ReplaceCharAbsent(d, '\U{20AC}', " euro ");
  }

  lemma CurrencyPound()
    ensures ReplaceCurrency("\U{A3}") == " pound "
  {
    var p := " pound ";
    ReplaceCharSingle('\U{A3}', '$', " dollar ");
    ReplaceCharSingle('\U{A3}', '\U{A3}', p);
    assert '\U{20AC}' !in p;
    ReplaceCharAbsent(p, '\U{20AC}', " euro ");
  }

  lemma CurrencyEuro()
    ensures ReplaceCurrency("\U{20AC}") == " euro "
  {
    ReplaceCharSingle('\U{20AC}', '$', " dollar ");
    ReplaceCharSingle('\U{20AC}', '\U{A3}', " pound ");
    ReplaceCharSingle('\U{20AC}', '\U{20AC}', " euro ");
  }

  lemma CurrencyOther(x: char)
    requires x != '$' && x != '\U{A3}' && x != '\U{20AC}'
    ensures ReplaceCurrency([x]) == [x]
  {
    ReplaceCharSingle(x, '$', " dollar ");
    ReplaceCharSingle(x, '\U{A3}', " pound ");
    ReplaceCharSingle(x, '\U{20AC}', " euro ");
  }

  /** A character of `\w` (ASCII). */
  predicate IsWordChar(c: char) {
    IsDigit(c) || 'a' <= c <= 'z' || 'A' <= c <= 'Z' || c == '_'
  }

  /**
   * `re.sub(r'\b\d{3,}\b', ' num ', s)`. `afterWord` says whether the
   * character just before `s` in the original text is a word character, so
   * that `\b` can be decided at the start of `s`. A maximal run of three or
   * more digits is replaced when it has a non-word character (or the text's
   * edge) on both sides; any other run is copied.
   */
  function ReplaceNumbers(s: string, afterWord: bool): string
    decreases |s|
  {
    if s == [] then []
    else if IsDigit(s[0]) then RunReplacement(s, afterWord) + ReplaceNumbers(s[DigitRun(s)..], true)
    else
      [s[0]] + ReplaceNumbers(s[1..], IsWordChar(s[0]))
  }

  /** Whether the text `a`, read after a character whose word-ness is `w`, ends in a word character. */
  function EndsInWord(a: string, w: bool): bool {
    if a == [] then w else IsWordChar(a[|a| - 1])
  }

  /** A text that does not start with a digit is rewritten the same whatever precedes it. */
  lemma ReplaceNumbersNonDigitStart(s: string, w: bool)
    requires s == [] || !IsDigit(s[0])
    ensures ReplaceNumbers(s, w) == ReplaceNumbers(s, false)
  {
  }

  /** The number pass works piecewise across a point where no digit run is cut. */
  lemma {:induction false} ReplaceNumbersAppend(a: string, b: string, w: bool)
    requires a == [] || !IsDigit(a[|a| - 1])
    ensures ReplaceNumbers(a + b, w) == ReplaceNumbers(a, w) + ReplaceNumbers(b, EndsInWord(a, w))
    decreases |a|, 1
  {
    if a == [] {
      assert a + b == b;
    } else if IsDigit(a[0]) {
      ReplaceNumbersAppendRun(a, b, w);
    } else {
      ReplaceNumbersAppendChar(a, b, w);
    }
  }

  lemma {:induction false} ReplaceNumbersAppendRun(a: string, b: string, w: bool)
    requires a != [] && IsDigit(a[0]) && !IsDigit(a[|a| - 1])
    ensures ReplaceNumbers(a + b, w) == ReplaceNumbers(a, w) + ReplaceNumbers(b, EndsInWord(a, w))
    decreases |a|, 0
  {
    var n := DigitRun(a);
    var head := RunReplacement(a, w);
    RunInsidePrefix(a, b, w);
    UnfoldRun(a, w);
    UnfoldRun(a + b, w);
    ReplaceNumbersAppend(a[n..], b, true);
    assert EndsInWord(a[n..], true) == EndsInWord(a, w);
    AppendAssoc(head, ReplaceNumbers(a[n..], true), ReplaceNumbers(b, EndsInWord(a, w)));
  }

  /** A digit run that ends inside `a` is rewritten the same whatever follows `a`. */
  lemma RunInsidePrefix(a: string, b: string, w: bool)
    requires a != [] && IsDigit(a[0]) && !IsDigit(a[|a| - 1])
    ensures DigitRun(a) < |a|
    ensures DigitRun(a + b) == DigitRun(a)
    ensures RunReplacement(a + b, w) == RunReplacement(a, w)
    ensures (a + b)[DigitRun(a)..] == a[DigitRun(a)..] + b
  {
    var n := DigitRun(a);
    DigitRunPrefix(a, b);
    var ab := a + b;
    assert ab[n] == a[n] && ab[..n] == a[..n];
  }

  lemma {:induction false} ReplaceNumbersAppendChar(a: string, b: string, w: bool)
    requires a != [] && !IsDigit(a[0]) && !IsDigit(a[|a| - 1])
    ensures ReplaceNumbers(a + b, w) == ReplaceNumbers(a, w) + ReplaceNumbers(b, EndsInWord(a, w))
    decreases |a|, 0
  {
    var v := IsWordChar(a[0]);
    UnfoldCharAppend(a, b, w);
    UnfoldChar(a, w);
    ReplaceNumbersAppend(a[1..], b, v);
    assert EndsInWord(a[1..], v) == EndsInWord(a, w);
    AppendAssoc([a[0]], ReplaceNumbers(a[1..], v), ReplaceNumbers(b, EndsInWord(a, w)));
  }

  /** A text starting with a non-digit, followed by more text, emits that character first. */
  lemma UnfoldCharAppend(a: string, b: string, w: bool)
    requires a != [] && !IsDigit(a[0])
    ensures ReplaceNumbers(a + b, w) == [a[0]] + ReplaceNumbers(a[1..] + b, IsWordChar(a[0]))
  {
    var ab := a + b;
    assert ab[1..] == a[1..] + b;
    UnfoldChar(ab, w);
  }

  /** What the number pass emits for the digit run that starts `s`. */
  function RunReplacement(s: string, afterWord: bool): string
    requires s != [] && IsDigit(s[0])
  {
    var n := DigitRun(s);
    if !afterWord && n >= 3 && (n == |s| || !IsWordChar(s[n])) then " num " else s[..n]
  }

  lemma UnfoldRun(s: string, w: bool)
    requires s != [] && IsDigit(s[0])
    ensures ReplaceNumbers(s, w) == RunReplacement(s, w) + ReplaceNumbers(s[DigitRun(s)..], true)
  {
  }

  lemma UnfoldChar(s: string, w: bool)
    requires s != [] && !IsDigit(s[0])
    ensures ReplaceNumbers(s, w) == [s[0]] + ReplaceNumbers(s[1..], IsWordChar(s[0]))
  {
  }

  /** The number pass only copies characters of its input or writes those of `" num "`. */
  lemma {:induction false} ReplaceNumbersChars(s: string, w: bool)
    ensures forall x :: x in ReplaceNumbers(s, w) ==> x in s || x in " num "
    decreases |s|
  {
    if s != [] {
      if IsDigit(s[0]) {
        var n := DigitRun(s);
        UnfoldRun(s, w);
        ReplaceNumbersChars(s[n..], true);
        assert forall x :: x in s[..n] ==> x in s;
        assert forall x :: x in s[n..] ==> x in s;
      } else {
        UnfoldChar(s, w);
        ReplaceNumbersChars(s[1..], IsWordChar(s[0]));
        assert forall x :: x in s[1..] ==> x in s;
      }
    }
  }

  /** A run of three or more digits with a non-word character (or nothing) on each side becomes `" num "`. */
  lemma NumberTokenReplaced(pre: string, digits: string, post: string)
    requires |digits| >= 3 && AllDigits(digits)
    requires pre == [] || !IsWordChar(pre[|pre| - 1])
    requires post == [] || !IsWordChar(post[0])
    ensures ReplaceNumbers(pre + (digits + post), false)
         == ReplaceNumbers(pre, false) + (" num " + ReplaceNumbers(post, false))
  {
    var s := digits + post;
    ReplaceNumbersAppend(pre, s, false);
    assert !EndsInWord(pre, false);
    DigitRunWhole(digits, post);
    UnfoldRun(s, false);
    assert s[|digits|..] == post;
    assert RunReplacement(s, false) == " num ";
    ReplaceNumbersNonDigitStart(post, true);
  }

  /**
   * A maximal digit run that is shorter than three digits, or that touches a
   * letter, digit or underscore on either side, is copied unchanged.
   */
  lemma RunKept(pre: string, digits: string, post: string)
    requires |digits| > 0 && AllDigits(digits)
    requires pre == [] || !IsDigit(pre[|pre| - 1])
    requires post == [] || !IsDigit(post[0])
    requires |digits| < 3 || (pre != [] && IsWordChar(pre[|pre| - 1])) || (post != [] && IsWordChar(post[0]))
    ensures ReplaceNumbers(pre + (digits + post), false)
         == ReplaceNumbers(pre, false) + (digits + ReplaceNumbers(post, false))
  {
    var s := digits + post;
    var e := EndsInWord(pre, false);
    ReplaceNumbersAppend(pre, s, false);
    DigitRunWhole(digits, post);
    UnfoldRun(s, e);
    assert s[|digits|..] == post;
    assert s[..|digits|] == digits;
    assert RunReplacement(s, e) == digits;
    ReplaceNumbersNonDigitStart(post, true);
  }

  /** Three digits in a row start at position `i` of `s`. */
  predicate ThreeDigitsAt(s: string, i: nat) {
    i + 2 < |s| && IsDigit(s[i]) && IsDigit(s[i + 1]) && IsDigit(s[i + 2])
  }

  /** No three consecutive digits anywhere in `s`. */
  predicate NoLongDigitRun(s: string) {
    forall i: nat :: i < |s| ==> !ThreeDigitsAt(s, i)
  }

  lemma NoLongDigitRunSuffix(s: string, k: nat)
    requires NoLongDigitRun(s) && k <= |s|
    ensures NoLongDigitRun(s[k..])
  {
    var t := s[k..];
    forall i: nat | i < |t|
      ensures !ThreeDigitsAt(t, i)
    {
      assert !ThreeDigitsAt(s, k + i);
      if i + 2 < |t| {
        assert t[i] == s[k + i] && t[i + 1] == s[k + i + 1] && t[i + 2] == s[k + i + 2];
      }
    }
  }

  lemma {:induction false} ReplaceNumbersIdentity(s: string, w: bool)
    requires NoLongDigitRun(s)
    ensures ReplaceNumbers(s, w) == s
    decreases |s|, 1
  {
    if s != [] {
      if IsDigit(s[0]) {
        IdentityRun(s, w);
      } else {
        IdentityChar(s, w);
      }
    }
  }

  lemma {:induction false} IdentityRun(s: string, w: bool)
    requires NoLongDigitRun(s) && s != [] && IsDigit(s[0])
    ensures ReplaceNumbers(s, w) == s
    decreases |s|, 0
  {
    var n := DigitRun(s);
    KeptRunThenRest(s, w);
    NoLongDigitRunSuffix(s, n);
    ReplaceNumbersIdentity(s[n..], true);
    assert s == s[..n] + s[n..];
  }

  /** Without three consecutive digits, the pass copies the leading run and carries on after it. */
  lemma KeptRunThenRest(s: string, w: bool)
    requires NoLongDigitRun(s) && s != [] && IsDigit(s[0])
    ensures ReplaceNumbers(s, w) == s[..DigitRun(s)] + ReplaceNumbers(s[DigitRun(s)..], true)
  {
    ShortRunKept(s, w);
    UnfoldRun(s, w);
  }

  lemma {:induction false} IdentityChar(s: string, w: bool)
    requires NoLongDigitRun(s) && s != [] && !IsDigit(s[0])
    ensures ReplaceNumbers(s, w) == s
    decreases |s|, 0
  {
    var rest := s[1..];
    UnfoldChar(s, w);
    NoLongDigitRunSuffix(s, 1);
    ReplaceNumbersIdentity(rest, IsWordChar(s[0]));
    assert s == [s[0]] + rest;
  }

  /** In text without three consecutive digits every digit run is copied. */
  lemma ShortRunKept(s: string, w: bool)
    requires NoLongDigitRun(s) && s != [] && IsDigit(s[0])
    ensures RunReplacement(s, w) == s[..DigitRun(s)]
  {
    assert !ThreeDigitsAt(s, 0);
  }

  /** The characters removed by the control-character pass. */
  predicate IsControl(c: char) {
    var k := c as int;
    (0 <= k <= 0x08) || (0x0B <= k <= 0x0C) || (0x0E <= k <= 0x1F)
    || (0x200B <= k <= 0x200F) || k == 0xFEFF
  }

  /** Removes C0 control characters other than tab, LF and CR, the zero-width and directional marks U+200B..U+200F, and the byte-order mark U+FEFF. */
  function StripControls(s: string): string {
    Filter(s, IsControl)
  }

  /** The pass keeps only characters of its input, and none it removes. */
  lemma StripControlsChars(s: string)
    ensures forall x :: x in StripControls(s) ==> x in s && !IsControl(x)
    ensures |StripControls(s)| <= |s|
  {
    FilterChars(s, IsControl);
  }

  /** The pass works character by character: it distributes over concatenation. */
  lemma StripControlsAppend(a: string, b: string)
    ensures StripControls(a + b) == StripControls(a) + StripControls(b)
  {
    FilterAppend(a, b, IsControl);
  }

  /** Text without control characters (tab, LF and CR included) is kept as it is. */
  lemma StripControlsIdentity(s: string)
    requires forall i :: 0 <= i < |s| ==> !IsControl(s[i])
    ensures StripControls(s) == s
  {
    FilterNone(s, IsControl);
  }

  /** A leading character that a spreadsheet would read as a formula. */
  predicate IsFormulaStart(c: char) {
    c == '=' || c == '+' || c == '-' || c == '@'
  }

  /** The formula-injection guard: prefix `'` when the text starts with `=`, `+`, `-` or `@`. */
  function GuardFormula(s: string): (r: string)
    ensures |r| > 0 ==> !IsFormulaStart(r[0])
    ensures r == s || r == "'" + s
    ensures r != s <==> |s| > 0 && IsFormulaStart(s[0])
  {
    if |s| > 0 && IsFormulaStart(s[0]) then "'" + s else s
  }

  /** `clean_text` on a `str`. */
  function CleanString(s: string): (r: string)
    ensures '$' !in r && '\U{A3}' !in r && '\U{20AC}' !in r
    ensures forall x :: x in r ==> !IsControl(x)
    ensures |r| <= MaxCellLength + 1
    ensures |r| > 0 ==> !IsFormulaStart(r[0])
  {
    var c := ReplaceCurrency(s);
    ReplaceNumbersChars(c, false);
    var t := StripControls(ReplaceNumbers(c, false));
    StripControlsChars(ReplaceNumbers(c, false));
    var cut := if |t| <= MaxCellLength then |t| else MaxCellLength;
    GuardFormula(t[..cut])
  }

  /** `clean_text`: a `str` is cleaned, any other value is handed back unchanged. */
  function CleanText(v: Value): (r: Value)
    ensures v.NonStr? ==> r == v
    ensures v.Str? ==> r == Str(CleanString(v.text))
    ensures v.Str? ==> r.Str? && '$' !in r.text && '\U{A3}' !in r.text && '\U{20AC}' !in r.text
  {
    match v
    case Str(s) => Str(CleanString(s))
    case NonStr(_) => v
  }

  /** Text that `clean_text` has nothing to do to. */
  predicate Plain(s: string) {
    && '$' !in s && '\U{A3}' !in s && '\U{20AC}' !in s
    && NoLongDigitRun(s)
    && (forall i :: 0 <= i < |s| ==> !IsControl(s[i]))
    && |s| <= MaxCellLength
    && (|s| > 0 ==> !IsFormulaStart(s[0]))
  }

  /** Text with no currency sign, no 3-digit number, no control character, no leading formula sign is returned as is. */
  lemma CleanStringPlain(s: string)
    requires Plain(s)
    ensures CleanString(s) == s
  {
    ReplaceCurrencyAbsent(s);
    ReplaceNumbersIdentity(s, false);
    StripControlsIdentity(s);
  }

  /** `clean_text("Hello World") == "Hello World"`. */
  lemma CleanHelloWorld()
    ensures CleanText(Str("Hello World")) == Str("Hello World")
  {
    HelloWorldPlain();
    CleanStringPlain("Hello World");
  }

  lemma HelloWorldPlain()
    ensures Plain("Hello World")
  {
    var s := "Hello World";
    assert forall i :: 0 <= i < |s| ==> !IsDigit(s[i]) && !IsControl(s[i]);
  }
}

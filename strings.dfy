/**
 * The pieces of Python's `str` behaviour the backend relies on: substring
 * tests (`sub in s`), `lower()`, f-string rendering of a non-negative
 * integer, code-point ordering (`sorted`) and `sep.join(items)`.
 */
module Strings {

  /** Python's `sub in s`. */
  predicate Contains(s: string, sub: string)
    decreases |s|
  {
    |sub| <= |s| && (s[..|sub|] == sub || Contains(s[1..], sub))
  }

  /** `sub` occurs in `s` starting at position `i`. */
  predicate OccursAt(s: string, sub: string, i: nat) {
    i + |sub| <= |s| && s[i..i + |sub|] == sub
  }

  /** `sub in s` holds exactly when `sub` occurs in `s` at some position. */
  lemma {:induction false} ContainsAt(s: string, sub: string)
    ensures Contains(s, sub) <==> exists i: nat :: OccursAt(s, sub, i)
    decreases |s|
  {
    var n := |sub|;
    if n <= |s| {
      if s[..n] == sub {
        assert OccursAt(s, sub, 0);
      } else {
        ContainsAt(s[1..], sub);
        if Contains(s[1..], sub) {
          var i: nat :| OccursAt(s[1..], sub, i);
          var a, b := s[i + 1..i + 1 + n], s[1..][i..i + n];
          assert forall k :: 0 <= k < n ==> a[k] == b[k];
          assert OccursAt(s, sub, i + 1);
        }
        if exists i: nat :: OccursAt(s, sub, i) {
          var i: nat :| OccursAt(s, sub, i);
          assert i != 0;
          var a, b := s[1..][i - 1..i - 1 + n], s[i..i + n];
          assert forall k :: 0 <= k < n ==> a[k] == b[k];
          assert OccursAt(s[1..], sub, i - 1);
        }
      }
    }
  }

  /** ASCII upper-case letters map to lower case; every other character is kept. */
  function LowerChar(c: char): char {
    if 'A' <= c <= 'Z' then (c as int - 'A' as int + 'a' as int) as char else c
  }

  /** Python's `s.lower()` restricted to ASCII letters. */
  function Lower(s: string): (r: string)
    ensures |r| == |s|
    ensures forall i :: 0 <= i < |s| ==> r[i] == LowerChar(s[i])
  {
    if s == [] then [] else [LowerChar(s[0])] + Lower(s[1..])
  }

  predicate IsDigit(c: char) {
    '0' <= c <= '9'
  }

  predicate AllDigits(s: string) {
    forall i :: 0 <= i < |s| ==> IsDigit(s[i])
  }

  function DigitChar(d: nat): char
    requires d < 10
  {
    ('0' as int + d) as char
  }

  /** `str(n)` / `f"{n}"` for a non-negative integer: its shortest decimal spelling. */
  function NatToString(n: nat): (r: string)
    ensures |r| > 0 && AllDigits(r)
    ensures r[0] == '0' ==> n == 0
  {
    if n < 10 then [DigitChar(n)] else NatToString(n / 10) + [DigitChar(n % 10)]
  }

  /** `int(s)` for a string of decimal digits. */
  function DecimalValue(s: string): nat
    requires AllDigits(s)
  {
    if s == [] then 0 else DecimalValue(s[..|s| - 1]) * 10 + (s[|s| - 1] as int - '0' as int)
  }

  /** Reading back the rendering of `n` gives `n`. */
  lemma {:induction false} DecimalRoundTrip(n: nat)
    ensures DecimalValue(NatToString(n)) == n
  {
    if n >= 10 {
      var s := NatToString(n);
      assert s[..|s| - 1] == NatToString(n / 10);
      DecimalRoundTrip(n / 10);
    }
  }

  /** The rendering is injective: different numbers have different spellings. */
  lemma NatToStringInjective(m: nat, n: nat)
    ensures NatToString(m) == NatToString(n) ==> m == n
  {
    DecimalRoundTrip(m);
    DecimalRoundTrip(n);
  }

  /** Python's `a < b` on strings: lexicographic order of code points. */
  predicate Below(a: string, b: string)
    decreases |a|
  {
    |b| > 0 && (|a| == 0 || a[0] < b[0] || (a[0] == b[0] && Below(a[1..], b[1..])))
  }

  lemma {:induction false} BelowIrreflexive(a: string)
    ensures !Below(a, a)
    decreases |a|
  {
    if |a| > 0 {
      BelowIrreflexive(a[1..]);
    }
  }

  lemma {:induction false} BelowTransitive(a: string, b: string, c: string)
    requires Below(a, b) && Below(b, c)
    ensures Below(a, c)
    decreases |a|
  {
    if |a| > 0 && a[0] == b[0] && b[0] == c[0] {
      BelowTransitive(a[1..], b[1..], c[1..]);
    }
  }

  lemma {:induction false} BelowTotal(a: string, b: string)
    requires a != b
    ensures Below(a, b) || Below(b, a)
    decreases |a|
  {
    if |a| > 0 && |b| > 0 && a[0] == b[0] {
      BelowTotal(a[1..], b[1..]);
    }
  }

  lemma {:induction false} BelowAsymmetric(a: string, b: string)
    requires Below(a, b)
    ensures !Below(b, a)
  {
    if Below(b, a) {
      BelowTransitive(a, b, a);
      BelowIrreflexive(a);
    }
  }

  /** `s.replace(c, w)` for a single character `c` (also `re.sub` of an escaped one-character pattern). */
  function ReplaceChar(s: string, c: char, w: string): (r: string)
    ensures c !in w ==> c !in r
  {
    if s == [] then [] else (if s[0] == c then w else [s[0]]) + ReplaceChar(s[1..], c, w)
  }

  /** Replacing writes only characters of the input or of the replacement. */
  lemma {:induction false} ReplaceCharChars(s: string, c: char, w: string)
    ensures forall x :: x in ReplaceChar(s, c, w) ==> x in s || x in w
    decreases |s|
  {
    if s != [] {
      ReplaceCharChars(s[1..], c, w);
      assert forall x :: x in s[1..] ==> x in s;
    }
  }

  /** Text without `c` is left alone. */
  lemma {:induction false} ReplaceCharAbsent(s: string, c: char, w: string)
    requires c !in s
    ensures ReplaceChar(s, c, w) == s
    decreases |s|
  {
    if s != [] {
      assert s[0] != c && c !in s[1..];
      ReplaceCharAbsent(s[1..], c, w);
      assert s == [s[0]] + s[1..];
    }
  }

  /** Replacing works character by character: it distributes over concatenation. */
  lemma {:induction false} ReplaceCharAppend(a: string, b: string, c: char, w: string)
    ensures ReplaceChar(a + b, c, w) == ReplaceChar(a, c, w) + ReplaceChar(b, c, w)
    decreases |a|
  {
    if a == [] {
      assert a + b == b;
    } else {
      assert (a + b)[1..] == a[1..] + b;
      ReplaceCharAppend(a[1..], b, c, w);
    }
  }

  /** A single character is replaced exactly when it is `c`. */
  lemma ReplaceCharSingle(x: char, c: char, w: string)
    ensures ReplaceChar([x], c, w) == if x == c then w else [x]
  {
    assert [x][1..] == [];
  }

  /** The characters of `s` that `drop` does not select, in order: `re.sub` of a character class by `''`. */
  function Filter(s: string, drop: char -> bool): (r: string)
    ensures |r| <= |s|
  {
    if s == [] then [] else (if drop(s[0]) then [] else [s[0]]) + Filter(s[1..], drop)
  }

  /** Filtering works character by character: it distributes over concatenation. */
  lemma {:induction false} FilterAppend(a: string, b: string, drop: char -> bool)
    ensures Filter(a + b, drop) == Filter(a, drop) + Filter(b, drop)
    decreases |a|
  {
    if a == [] {
      assert a + b == b;
    } else {
      assert (a + b)[1..] == a[1..] + b;
      FilterAppend(a[1..], b, drop);
      var h := if drop(a[0]) then [] else [a[0]];
      assert h + (Filter(a[1..], drop) + Filter(b, drop)) == (h + Filter(a[1..], drop)) + Filter(b, drop);
    }
  }

  /** Filtering keeps only characters of its input, and none it drops. */
  lemma {:induction false} FilterChars(s: string, drop: char -> bool)
    ensures forall x :: x in Filter(s, drop) ==> x in s && !drop(x)
    decreases |s|
  {
    if s != [] {
      FilterChars(s[1..], drop);
      assert forall x :: x in s[1..] ==> x in s;
    }
  }

  /** Text with nothing to drop is kept as it is. */
  lemma {:induction false} FilterNone(s: string, drop: char -> bool)
    requires forall i :: 0 <= i < |s| ==> !drop(s[i])
    ensures Filter(s, drop) == s
    decreases |s|
  {
    if s != [] {
      assert forall i :: 0 <= i < |s| - 1 ==> s[1..][i] == s[i + 1];
      FilterNone(s[1..], drop);
      assert s == [s[0]] + s[1..];
    }
  }

  /** Text made only of dropped characters filters to nothing. */
  lemma {:induction false} FilterAll(s: string, drop: char -> bool)
    requires forall i :: 0 <= i < |s| ==> drop(s[i])
    ensures Filter(s, drop) == []
    decreases |s|
  {
    if s != [] {
      assert forall i :: 0 <= i < |s| - 1 ==> s[1..][i] == s[i + 1];
      FilterAll(s[1..], drop);
    }
  }

  /** `sep.join(items)`. */
  function JoinWith(sep: string, items: seq<string>): (r: string)
    ensures items == [] ==> r == []
    ensures |items| == 1 ==> r == items[0]
  {
    if items == [] then []
    else if |items| == 1 then items[0]
    else items[0] + sep + JoinWith(sep, items[1..])
  }

  /** With a non-empty separator, the join is empty only for no items or a single empty item. */
  lemma JoinWithEmpty(sep: string, items: seq<string>)
    requires |sep| > 0
    ensures |JoinWith(sep, items)| == 0 <==> items == [] || (|items| == 1 && items[0] == [])
  {
  }

  /** Length of the run of characters satisfying `p` that starts `s`. */
  function SpanLength(s: string, p: char -> bool): (n: nat)
    ensures n <= |s|
    ensures forall i :: 0 <= i < n ==> p(s[i])
    ensures n < |s| ==> !p(s[n])
    ensures |s| > 0 && p(s[0]) ==> n > 0
  {
    if s == [] || !p(s[0]) then 0 else 1 + SpanLength(s[1..], p)
  }

  /** Length of the run of ASCII digits that starts `s`. */
  function DigitRun(s: string): (n: nat)
    ensures n <= |s| && AllDigits(s[..n])
    ensures n < |s| ==> !IsDigit(s[n])
    ensures |s| > 0 && IsDigit(s[0]) ==> n > 0
  {
    SpanLength(s, IsDigit)
  }

  lemma {:induction false} DigitRunPrefix(a: string, b: string)
    requires DigitRun(a) < |a|
    ensures DigitRun(a + b) == DigitRun(a)
    decreases |a|
  {
    if IsDigit(a[0]) {
      assert (a + b)[1..] == a[1..] + b;
      DigitRunPrefix(a[1..], b);
    }
  }

  lemma {:induction false} DigitRunWhole(a: string, b: string)
    requires AllDigits(a)
    requires b == [] || !IsDigit(b[0])
    ensures DigitRun(a + b) == |a|
    decreases |a|
  {
    if a != [] {
      assert (a + b)[1..] == a[1..] + b;
      DigitRunWhole(a[1..], b);
    }
  }

  /** Concatenation is associative (a step the solver often needs spelled out). */
  lemma AppendAssoc(x: string, y: string, z: string)
    ensures x + (y + z) == (x + y) + z
  {
  }
}

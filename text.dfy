/**
  ASCII text primitives the flow-log tool takes from Python's `str`:
  `strip()`, `lower()`, `split()`, the ordering of strings, `int()` and `str()`
  on integers. Only ASCII is modelled; every other character is treated as a
  non-space, non-letter, non-digit character.
 */
module Text {

  datatype Option<T> = None | Some(value: T)

  /** The ASCII characters Python's `str.isspace()` accepts: the space,
      the controls 9 to 13 (tab, line feed, vertical tab, form feed, carriage
      return) and the separators 28 to 31. */
  predicate IsSpace(c: char) {
    c == ' ' || 9 <= c as int <= 13 || 28 <= c as int <= 31
  }

  predicate AllSpace(s: string) {
    forall i :: 0 <= i < |s| ==> IsSpace(s[i])
  }

  predicate NoSpace(s: string) {
    forall i :: 0 <= i < |s| ==> !IsSpace(s[i])
  }

  /** `s.lstrip()`: drops the leading whitespace. */
  function StripLeft(s: string): (r: string)
    ensures r == [] || !IsSpace(r[0])
  {
    if s != [] && IsSpace(s[0]) then StripLeft(s[1..]) else s
  }

  /** `s.rstrip()`: drops the trailing whitespace. */
  function StripRight(s: string): (r: string)
    ensures r == [] || !IsSpace(r[|r| - 1])
  {
    if s != [] && IsSpace(s[|s| - 1]) then StripRight(s[..|s| - 1]) else s
  }

  /** `s.strip()`: the middle of `s` between its leading and its trailing
      whitespace. A string that neither starts nor ends with whitespace is
      left as it is. */
  function Strip(s: string): (r: string)
    ensures r == [] || (!IsSpace(r[0]) && !IsSpace(r[|r| - 1]))
    ensures (s == [] || (!IsSpace(s[0]) && !IsSpace(s[|s| - 1]))) ==> r == s
  {
    var l := StripLeft(s);
    assert l != [] ==> l[0] == s[|s| - |l|] by { StripLeftIsSuffix(s); }
    var r := StripRight(l);
    assert r != [] ==> r[0] == l[0] by { StripRightIsPrefix(l); }
    r
  }

  lemma {:induction false} StripLeftIsSuffix(s: string)
    ensures var r := StripLeft(s); |r| <= |s| && r == s[|s| - |r|..] && AllSpace(s[..|s| - |r|])
    decreases |s|
  {
    if s != [] && IsSpace(s[0]) {
      StripLeftIsSuffix(s[1..]);
      var r := StripLeft(s[1..]);
      assert s[..|s| - |r|] == [s[0]] + s[1..][..|s| - 1 - |r|];
    }
  }

  lemma {:induction false} StripRightIsPrefix(s: string)
    ensures var r := StripRight(s); |r| <= |s| && r == s[..|r|] && AllSpace(s[|r|..])
    decreases |s|
  {
    if s != [] && IsSpace(s[|s| - 1]) {
      StripRightIsPrefix(s[..|s| - 1]);
      var r := StripRight(s[..|s| - 1]);
      assert s[|r|..] == s[..|s| - 1][|r|..] + [s[|s| - 1]];
    }
  }

  /** What `strip()` drops is whitespace, and what it keeps is a contiguous
      part of the string. */
  lemma StripIsSlice(s: string)
    ensures var r := Strip(s);
      exists i :: 0 <= i <= |s| - |r| && r == s[i..i + |r|] && AllSpace(s[..i]) && AllSpace(s[i + |r|..])
  {
    var l := StripLeft(s);
    var r := StripRight(l);
    StripLeftIsSuffix(s);
    StripRightIsPrefix(l);
    var i := |s| - |l|;
    assert r == s[i..i + |r|];
    assert s[i + |r|..] == l[|r|..];
  }

  predicate IsUpper(c: char) {
    'A' <= c <= 'Z'
  }

  function LowerChar(c: char): char {
    if IsUpper(c) then (c as int + 32) as char else c
  }

  /** `s.lower()` on ASCII: every upper-case letter becomes its lower-case
      letter, everything else is kept. */
  function Lower(s: string): (r: string)
    ensures |r| == |s|
    ensures forall i :: 0 <= i < |r| ==> !IsUpper(r[i])
    ensures forall i :: 0 <= i < |r| ==> (r[i] == s[i] <==> !IsUpper(s[i]))
    ensures (forall i :: 0 <= i < |s| ==> !IsUpper(s[i])) ==> r == s
    ensures forall i :: 0 <= i < |s| && IsUpper(s[i]) ==>
      'a' <= r[i] <= 'z' && r[i] as int - 'a' as int == s[i] as int - 'A' as int
  {
    seq(|s|, i requires 0 <= i < |s| => LowerChar(s[i]))
  }

  /** The length of the run of non-whitespace characters that starts `s`. */
  function WordLength(s: string): (n: nat)
    ensures n <= |s| && NoSpace(s[..n]) && (n == |s| || IsSpace(s[n]))
    ensures s != [] && !IsSpace(s[0]) ==> n > 0
  {
    if s == [] || IsSpace(s[0]) then 0 else 1 + WordLength(s[1..])
  }

  /** `s.split()` with no separator: the maximal runs of non-whitespace
      characters of `s`, in order. */
  function Split(s: string): (fields: seq<string>)
    ensures forall i :: 0 <= i < |fields| ==> fields[i] != [] && NoSpace(fields[i])
    decreases |s|
  {
    if s == [] then []
    else if IsSpace(s[0]) then Split(s[1..])
    else
      var n := WordLength(s);
      [s[..n]] + Split(s[n..])
  }

  /** The words of `ws` separated by single spaces. */
  function JoinSpace(ws: seq<string>): string
    decreases |ws|
  {
    if ws == [] then []
    else if |ws| == 1 then ws[0]
    else ws[0] + " " + JoinSpace(ws[1..])
  }

  predicate IsWord(w: string) {
    w != [] && NoSpace(w)
  }

  lemma SplitWord(w: string, t: string)
    requires IsWord(w)
    requires t == [] || IsSpace(t[0])
    ensures Split(w + t) == [w] + Split(t)
  {
    var s := w + t;
    var n := WordLength(s);
    assert forall i :: 0 <= i < |w| ==> s[i] == w[i];
    assert |w| < |s| ==> s[|w|] == t[0];
    assert n == |w|;
    assert s[..n] == w;
    assert s[n..] == t;
  }

  /** Splitting words joined by single spaces gives the words back. */
  lemma {:induction false} SplitJoinSpace(ws: seq<string>)
    requires forall i :: 0 <= i < |ws| ==> IsWord(ws[i])
    ensures Split(JoinSpace(ws)) == ws
    decreases |ws|
  {
    if ws == [] {
    } else if |ws| == 1 {
      SplitWord(ws[0], []);
      assert ws[0] + [] == ws[0];
    } else {
      var rest := JoinSpace(ws[1..]);
      SplitWord(ws[0], " " + rest);
      assert ws[0] + " " + rest == ws[0] + (" " + rest);
      assert (" " + rest)[1..] == rest;
      SplitJoinSpace(ws[1..]);
      assert ws == [ws[0]] + ws[1..];
    }
  }

  /** Leading whitespace does not change the fields. */
  lemma {:induction false} SplitLeadingSpace(w: string, s: string)
    requires AllSpace(w)
    ensures Split(w + s) == Split(s)
    decreases |w|
  {
    if w == [] {
      assert w + s == s;
    } else {
      assert (w + s)[0] == w[0];
      assert (w + s)[1..] == w[1..] + s;
      SplitLeadingSpace(w[1..], s);
    }
  }

  /** A string of whitespace only has no fields. */
  lemma SplitAllSpace(w: string)
    requires AllSpace(w)
    ensures Split(w) == []
  {
    SplitLeadingSpace(w, []);
    assert w + [] == w;
  }

  /** The conditions of `WordLength`'s contract pick out one length only. */
  lemma WordLengthUnique(s: string, m: nat)
    requires m <= |s| && NoSpace(s[..m]) && (m == |s| || IsSpace(s[m]))
    ensures WordLength(s) == m
    decreases m
  {
    if m > 0 {
      assert s[..m][0] == s[0];
      var t := s[1..];
      var u, v := t[..m - 1], s[..m];
      forall i | 0 <= i < |u| ensures !IsSpace(u[i]) {
        assert u[i] == v[i + 1];
      }
      assert m - 1 < |t| ==> t[m - 1] == s[m];
      WordLengthUnique(t, m - 1);
    }
  }

  /** A run of whitespace separates fields: whatever stands on either side
      of it, the fields of the whole are those of the left part followed by
      those of the right part. With `SplitAllSpace` and `SplitWord` this
      fixes the result of `split()` on every string. */
  lemma {:induction false} SplitConcat(a: string, w: string, b: string)
    requires w != [] && AllSpace(w)
    ensures Split(a + w + b) == Split(a) + Split(b)
    decreases |a|
  {
    var s := a + w + b;
    if a == [] {
      assert s == w + b;
      SplitLeadingSpace(w, b);
    } else if IsSpace(a[0]) {
      assert s[1..] == a[1..] + w + b;
      SplitConcat(a[1..], w, b);
    } else {
      var n := WordLength(a);
      assert s[..n] == a[..n];
      if n < |a| {
        assert s[n] == a[n];
        WordLengthUnique(s, n);
        assert s[n..] == a[n..] + w + b;
        SplitConcat(a[n..], w, b);
      } else {
        assert s[n] == w[0];
        WordLengthUnique(s, n);
        assert s[n..] == w + b;
        SplitLeadingSpace(w, b);
      }
    }
  }

  /** Whitespace before and after a string does not change its fields. */
  lemma SplitPadded(lead: string, s: string, trail: string)
    requires AllSpace(lead) && AllSpace(trail)
    ensures Split(lead + s + trail) == Split(s)
  {
    assert lead + s + trail == lead + (s + trail);
    SplitLeadingSpace(lead, s + trail);
    if trail != [] {
      SplitConcat(s, trail, []);
      assert s + trail + [] == s + trail;
    } else {
      assert s + trail == s;
    }
  }

  /** `s.strip().split() == s.split()`. */
  lemma SplitStripLeft(s: string)
    ensures Split(StripLeft(s)) == Split(s)
  {
    var l := StripLeft(s);
    StripLeftIsSuffix(s);
    var lead := s[..|s| - |l|];
    assert s == lead + l;
    SplitLeadingSpace(lead, l);
  }

  lemma SplitStripRight(s: string)
    ensures Split(StripRight(s)) == Split(s)
  {
    var r := StripRight(s);
    StripRightIsPrefix(s);
    var trail := s[|r|..];
    if trail != [] {
      assert s == r + trail + [];
      SplitConcat(r, trail, []);
    } else {
      assert s == r;
    }
  }

  /** `s.strip().split() == s.split()`. */
  lemma SplitStrip(s: string)
    ensures Split(Strip(s)) == Split(s)
  {
    SplitStripLeft(s);
    SplitStripRight(StripLeft(s));
  }

  lemma {:induction false} StripLeftPadded(lead: string, x: string)
    requires AllSpace(lead) && (x == [] || !IsSpace(x[0]))
    ensures StripLeft(lead + x) == x
    decreases |lead|
  {
    if lead == [] {
      assert lead + x == x;
    } else {
      assert (lead + x)[0] == lead[0];
      assert (lead + x)[1..] == lead[1..] + x;
      StripLeftPadded(lead[1..], x);
    }
  }

  lemma {:induction false} StripRightPadded(x: string, trail: string)
    requires AllSpace(trail) && (x == [] || !IsSpace(x[|x| - 1]))
    ensures StripRight(x + trail) == x
    decreases |trail|
  {
    if trail == [] {
      assert x + trail == x;
    } else {
      var t := trail[..|trail| - 1];
      assert (x + trail)[|x + trail| - 1] == trail[|trail| - 1];
      assert (x + trail)[..|x + trail| - 1] == x + t;
      StripRightPadded(x, t);
    }
  }

  /** `strip()` removes exactly the whitespace around text that neither
      starts nor ends with whitespace. */
  lemma StripPadded(lead: string, x: string, trail: string)
    requires AllSpace(lead) && AllSpace(trail)
    requires x != [] && !IsSpace(x[0]) && !IsSpace(x[|x| - 1])
    ensures Strip(lead + x + trail) == x
  {
    assert lead + x + trail == lead + (x + trail);
    StripLeftPadded(lead, x + trail);
    StripRightPadded(x, trail);
  }

  /** Python's comparison of two `str` values: lexicographic by character
      code, a proper prefix coming first. `StrLe(a, b)` is `a <= b`. */
  predicate StrLe(a: string, b: string)
    ensures a <= b ==> StrLe(a, b)
    ensures a != [] && b != [] && a[0] != b[0] ==> (StrLe(a, b) <==> a[0] < b[0])
  {
    if a == [] then true
    else if b == [] then false
    else if a[0] != b[0] then a[0] < b[0]
    else StrLe(a[1..], b[1..])
  }

  /** `a < b` on Python strings. */
  predicate StrLess(a: string, b: string) {
    StrLe(a, b) && a != b
  }

  /** At the first position where two strings differ, the smaller
      character decides. */
  lemma {:induction false} StrLeAtFirstDifference(a: string, b: string, k: nat)
    requires k < |a| && k < |b| && a[..k] == b[..k] && a[k] != b[k]
    ensures StrLe(a, b) <==> a[k] < b[k]
    decreases k
  {
    if k > 0 {
      assert a[0] == a[..k][0] == b[..k][0] == b[0];
      assert a[1..][..k - 1] == a[..k][1..];
      assert b[1..][..k - 1] == b[..k][1..];
      StrLeAtFirstDifference(a[1..], b[1..], k - 1);
    }
  }

  lemma {:induction false} StrLeTotal(a: string, b: string)
    ensures StrLe(a, b) || StrLe(b, a)
  {
    if a != [] && b != [] && a[0] == b[0] {
      StrLeTotal(a[1..], b[1..]);
    }
  }

  lemma {:induction false} StrLeTransitive(a: string, b: string, c: string)
    requires StrLe(a, b) && StrLe(b, c)
    ensures StrLe(a, c)
  {
    if a != [] && b != [] && c != [] && a[0] == b[0] && b[0] == c[0] {
      StrLeTransitive(a[1..], b[1..], c[1..]);
    }
  }

  predicate IsDigit(c: char) {
    '0' <= c <= '9'
  }

  function DigitValue(c: char): (d: nat)
    requires IsDigit(c)
    ensures d < 10
  {
    c as int - '0' as int
  }

  function DigitChar(d: nat): (c: char)
    requires d < 10
    ensures IsDigit(c) && DigitValue(c) == d
  {
    ('0' as int + d) as char
  }

  /** The body of a decimal literal as Python's `int()` accepts it: ASCII
      digits, where a single underscore may stand between two digits. */
  predicate IsDigitBody(s: string) {
    && s != []
    && IsDigit(s[0])
    && IsDigit(s[|s| - 1])
    && (forall i :: 0 <= i < |s| ==> IsDigit(s[i]) || s[i] == '_')
    && (forall i :: 0 <= i < |s| - 1 ==> IsDigit(s[i]) || IsDigit(s[i + 1]))
  }

  /** The value of the digits of `s` read in base 10, underscores skipped. */
  function DecimalValue(s: string): nat
    decreases |s|
  {
    if s == [] then 0
    else if IsDigit(s[|s| - 1]) then 10 * DecimalValue(s[..|s| - 1]) + DigitValue(s[|s| - 1])
    else DecimalValue(s[..|s| - 1])
  }

  /** The ASCII characters `int()` skips around a number: the space and the
      controls 9 to 13. Unlike `str.isspace()`, it does not skip the
      separators 28 to 31. */
  predicate IsIntSpace(c: char) {
    c == ' ' || 9 <= c as int <= 13
  }

  predicate AllIntSpace(s: string) {
    forall i :: 0 <= i < |s| ==> IsIntSpace(s[i])
  }

  function IntStripLeft(s: string): (r: string)
    ensures r == [] || !IsIntSpace(r[0])
  {
    if s != [] && IsIntSpace(s[0]) then IntStripLeft(s[1..]) else s
  }

  function IntStripRight(s: string): (r: string)
    ensures |r| <= |s| && r == s[..|r|]
    ensures r == [] || !IsIntSpace(r[|r| - 1])
  {
    if s != [] && IsIntSpace(s[|s| - 1]) then IntStripRight(s[..|s| - 1]) else s
  }

  /** The trimming `int()` does before reading a number: the characters of
      `IsIntSpace` at either end are dropped. A string that neither starts
      nor ends with one is left as it is. */
  function IntStrip(s: string): (r: string)
    ensures r == [] || (!IsIntSpace(r[0]) && !IsIntSpace(r[|r| - 1]))
    ensures (s == [] || (!IsIntSpace(s[0]) && !IsIntSpace(s[|s| - 1]))) ==> r == s
  {
    IntStripRight(IntStripLeft(s))
  }

  lemma {:induction false} IntStripLeftPadded(lead: string, x: string)
    requires AllIntSpace(lead) && (x == [] || !IsIntSpace(x[0]))
    ensures IntStripLeft(lead + x) == x
    decreases |lead|
  {
    if lead == [] {
      assert lead + x == x;
    } else {
      assert (lead + x)[0] == lead[0];
      assert (lead + x)[1..] == lead[1..] + x;
      IntStripLeftPadded(lead[1..], x);
    }
  }

  lemma {:induction false} IntStripRightPadded(x: string, trail: string)
    requires AllIntSpace(trail) && (x == [] || !IsIntSpace(x[|x| - 1]))
    ensures IntStripRight(x + trail) == x
    decreases |trail|
  {
    if trail == [] {
      assert x + trail == x;
    } else {
      var t := trail[..|trail| - 1];
      assert (x + trail)[|x + trail| - 1] == trail[|trail| - 1];
      assert (x + trail)[..|x + trail| - 1] == x + t;
      IntStripRightPadded(x, t);
    }
  }

  /** Trimming a text padded on both sides with blanks of `IsIntSpace` gives
      the text back. */
  lemma IntStripPadded(lead: string, x: string, trail: string)
    requires AllIntSpace(lead) && AllIntSpace(trail)
    requires x != [] && !IsIntSpace(x[0]) && !IsIntSpace(x[|x| - 1])
    ensures IntStrip(lead + x + trail) == x
  {
    assert lead + x + trail == lead + (x + trail);
    IntStripLeftPadded(lead, x + trail);
    IntStripRightPadded(x, trail);
  }

  /** The most digits `int()` converts in base 10: CPython's default limit
      on integer string conversion (`sys.int_info.default_max_str_digits`).
      A literal with more digits raises `ValueError`. */
  const IntMaxStrDigits: nat := 4300

  /** The number of digits in `s`; underscores and signs are not counted. */
  function DigitCount(s: string): (n: nat)
    ensures n <= |s|
  {
    if s == [] then 0 else (if IsDigit(s[0]) then 1 else 0) + DigitCount(s[1..])
  }

  lemma {:induction false} DigitCountOfDigits(s: string)
    requires forall i :: 0 <= i < |s| ==> IsDigit(s[i])
    ensures DigitCount(s) == |s|
  {
    if s != [] {
      DigitCountOfDigits(s[1..]);
    }
  }

  /** Python's `int(s)` in base 10 on an ASCII string: the blanks of
      `IsIntSpace` around it are ignored, an optional sign is followed by a
      digit body of at most `IntMaxStrDigits` digits; anything else raises
      `ValueError`, modelled as `None`. */
  function PyInt(s: string): Option<int> {
    SignedDecimal(IntStrip(s))
  }

  /** What `int()` accepts: after trimming, a non-empty run of digits and
      underscores, with at most a sign before it, ending in a digit, and no
      more than `IntMaxStrDigits` digits. Every other string makes `int()`
      raise. */
  lemma PyIntAccepts(s: string)
    requires PyInt(s).Some?
    ensures var t := IntStrip(s);
      && t != []
      && (forall i :: 0 <= i < |t| ==> IsDigit(t[i]) || t[i] == '_' || (i == 0 && (t[i] == '+' || t[i] == '-')))
      && IsDigit(t[|t| - 1])
      && DigitCount(t) <= IntMaxStrDigits
  {
    var t := IntStrip(s);
    if t[0] == '+' || t[0] == '-' {
      var d := t[1..];
      assert forall i :: 1 <= i < |t| ==> t[i] == d[i - 1];
    }
  }

  /** `int()` of a run of digits, padded with blanks, is its decimal value. */
  lemma PyIntOfDigits(lead: string, d: string, trail: string)
    requires AllIntSpace(lead) && AllIntSpace(trail)
    requires d != [] && forall i :: 0 <= i < |d| ==> IsDigit(d[i])
    requires |d| <= IntMaxStrDigits
    ensures PyInt(lead + d + trail) == Some(DecimalValue(d))
  {
    IntStripPadded(lead, d, trail);
    DigitCountOfDigits(d);
    assert !(d[0] == '+' || d[0] == '-');
    assert IsDigitBody(d);
  }

  /** `int()` of a run of more than `IntMaxStrDigits` digits raises, however
      it is padded. */
  lemma PyIntTooManyDigits(lead: string, d: string, trail: string)
    requires AllIntSpace(lead) && AllIntSpace(trail)
    requires forall i :: 0 <= i < |d| ==> IsDigit(d[i])
    requires |d| > IntMaxStrDigits
    ensures PyInt(lead + d + trail) == None
  {
    IntStripPadded(lead, d, trail);
    DigitCountOfDigits(d);
  }

  /** Strings `int()` rejects: the empty string, a sign alone, letters
      after digits, a doubled, leading or trailing underscore, a blank
      between the sign and the digits, a separator character (28 to 31)
      before the digits, which `str.isspace()` counts as whitespace but
      `int()` does not skip, and 4301 ones. */
  lemma PyIntRejects()
    ensures PyInt("") == None && PyInt("+") == None && PyInt("8a") == None
    ensures PyInt("1__0") == None && PyInt("_1") == None && PyInt("1_") == None
    ensures PyInt("- 5") == None
    ensures PyInt([28 as char] + "5") == None
    ensures PyInt(seq(IntMaxStrDigits + 1, _ => '1')) == None
  {
    assert IntStrip("8a") == "8a" && IntStrip("1__0") == "1__0" && IntStrip("_1") == "_1";
    assert IntStrip("1_") == "1_" && IntStrip("- 5") == "- 5" && IntStrip("+") == "+";
    var fs := [28 as char] + "5";
    assert IntStrip(fs) == fs;
    assert !IsDigit(fs[0]);
    assert !IsDigitBody("1__0") by {
      assert !(IsDigit("1__0"[1]) || IsDigit("1__0"[2]));
    }
    assert !IsDigitBody(" 5") by {
      assert !IsDigit(" 5"[0]);
    }
    assert "- 5"[1..] == " 5";
    var ones := seq(IntMaxStrDigits + 1, _ => '1');
    assert [] + ones + [] == ones;
    PyIntTooManyDigits([], ones, []);
  }

  /** An optional sign followed by a digit body of at most `IntMaxStrDigits`
      digits, with nothing around it. */
  function SignedDecimal(t: string): Option<int> {
    if t != [] && (t[0] == '+' || t[0] == '-') then
      if IsDigitBody(t[1..]) && DigitCount(t[1..]) <= IntMaxStrDigits then
        var v: int := DecimalValue(t[1..]);
        Some(if t[0] == '-' then -v else v)
      else None
    else if IsDigitBody(t) && DigitCount(t) <= IntMaxStrDigits then Some(DecimalValue(t))
    else None
  }

  /** Python's `str(n)` for a non-negative integer: its decimal digits, with
      no leading zero. */
  function NatToString(n: nat): (s: string)
    ensures s != [] && forall i :: 0 <= i < |s| ==> IsDigit(s[i])
    ensures s[0] == '0' ==> n == 0
  {
    if n < 10 then [DigitChar(n)] else NatToString(n / 10) + [DigitChar(n % 10)]
  }

  lemma {:induction false} DecimalValueOfNatToString(n: nat)
    ensures DecimalValue(NatToString(n)) == n
  {
    if n >= 10 {
      var s := NatToString(n);
      assert s[..|s| - 1] == NatToString(n / 10);
      DecimalValueOfNatToString(n / 10);
    }
  }

  /** `int(str(n)) == n` for every count of at most `IntMaxStrDigits` digits,
      the range in which `str()` itself does not raise. */
  lemma PyIntOfNatToString(n: nat)
    requires |NatToString(n)| <= IntMaxStrDigits
    ensures PyInt(NatToString(n)) == Some(n)
  {
    var s := NatToString(n);
    assert [] + s + [] == s;
    PyIntOfDigits([], s, []);
    DecimalValueOfNatToString(n);
  }
}

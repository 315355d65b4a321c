/** The few Python string builtins the core relies on: `str.upper`, `str.strip`,
    `str.startswith`, slicing `s[:n]`, `str.replace(c, '')` and `float(s)`.
    `float` is modelled on plain decimal literals only. */
module PyText {
  import opened Wrappers

  /** `str.isspace` for one character. */
  predicate IsSpace(c: char) {
    c in {' ', '\t', '\n', '\r', '\U{B}', '\U{C}', '\U{1C}', '\U{1D}', '\U{1E}', '\U{1F}',
          '\U{85}', '\U{A0}', '\U{1680}', '\U{2028}', '\U{2029}', '\U{202F}', '\U{205F}', '\U{3000}'}
    || ('\U{2000}' <= c <= '\U{200A}')
  }

  /** `str.upper` on ASCII letters; every other character is kept as it is. */
  function UpperChar(c: char): char {
    if 'a' <= c <= 'z' then (c as int - 32) as char else c
  }

  function Upper(s: string): (u: string)
    ensures |u| == |s|
  {
    seq(|s|, i requires 0 <= i < |s| => UpperChar(s[i]))
  }

  /** `str.lstrip()`: drops the leading whitespace and nothing else. */
  function StripLeft(s: string): (t: string)
    ensures |t| <= |s| && t == s[|s| - |t|..]
    ensures forall i :: 0 <= i < |s| - |t| ==> IsSpace(s[i])
    ensures t == [] || !IsSpace(t[0])
  {
    if |s| > 0 && IsSpace(s[0]) then StripLeft(s[1..]) else s
  }

  /** `str.rstrip()`: drops the trailing whitespace and nothing else. */
  function StripRight(s: string): (t: string)
    ensures |t| <= |s| && t == s[..|t|]
    ensures forall i :: |t| <= i < |s| ==> IsSpace(s[i])
    ensures t == [] || !IsSpace(t[|t| - 1])
  {
    if |s| > 0 && IsSpace(s[|s| - 1]) then StripRight(s[..|s| - 1]) else s
  }

  /** `str.strip()`. */
  function Strip(s: string): string {
    StripRight(StripLeft(s))
  }

  /** `s.startswith(prefix)`. */
  predicate StartsWith(s: string, prefix: string) {
    |prefix| <= |s| && s[..|prefix|] == prefix
  }

  /** The slice `s[:n]`. */
  function Take(s: string, n: nat): (t: string)
    ensures |t| == if |s| <= n then |s| else n
    ensures StartsWith(s, t)
  {
    if |s| <= n then s else s[..n]
  }

  /** `s.replace(c, '')`: the characters of `s` other than `c`, in order. */
  function RemoveAll(s: string, c: char): (t: string)
    ensures c !in t
    ensures forall d :: d != c ==> (d in t <==> d in s)
    ensures |t| <= |s|
  {
    if s == [] then []
    else if s[0] == c then RemoveAll(s[1..], c)
    else [s[0]] + RemoveAll(s[1..], c)
  }

  predicate IsDigit(c: char) {
    '0' <= c <= '9'
  }

  predicate AllDigits(s: string) {
    forall i :: 0 <= i < |s| ==> IsDigit(s[i])
  }

  function DigitValue(c: char): (d: nat)
    requires IsDigit(c)
    ensures d < 10
  {
    c as int - '0' as int
  }

  /** The number a string of decimal digits spells, most significant digit first. */
  function DigitsValue(s: string): nat
    requires AllDigits(s)
  {
    if s == [] then 0 else DigitsValue(s[..|s| - 1]) * 10 + DigitValue(s[|s| - 1])
  }

  function Pow10(n: nat): (p: nat)
    ensures p >= 1
  {
    if n == 0 then 1 else 10 * Pow10(n - 1)
  }

  /** Position of the first `c` in `s`, or `|s|` when there is none (`str.find`, with `|s|` for -1). */
  function IndexOf(s: string, c: char): (k: nat)
    ensures k <= |s|
    ensures k < |s| ==> s[k] == c
    ensures forall j :: 0 <= j < k ==> s[j] != c
  {
    if s == [] then 0 else if s[0] == c then 0 else 1 + IndexOf(s[1..], c)
  }

  /** The value of the decimal literal `w.f`: w + f / 10^|f|. */
  function DecimalValue(w: string, f: string): (v: real)
    requires AllDigits(w) && AllDigits(f)
    ensures v >= 0.0
  {
    DigitsValue(w) as real + DigitsValue(f) as real / Pow10(|f|) as real
  }

  /** The unsigned decimal literals, described character by character: digits and decimal
      points only, at most one point, at least one digit (`5`, `5.`, `.5`, `2.50`). */
  predicate IsDecimalLiteral(s: string) {
    && (forall i :: 0 <= i < |s| ==> IsDigit(s[i]) || s[i] == '.')
    && (forall i, j :: 0 <= i < j < |s| && s[i] == '.' ==> s[j] != '.')
    && (exists i :: 0 <= i < |s| && IsDigit(s[i]))
  }

  /** An optional sign followed by an unsigned decimal literal. */
  predicate IsFloatLiteral(t: string) {
    IsDecimalLiteral(t) || (t != [] && (t[0] == '+' || t[0] == '-') && IsDecimalLiteral(t[1..]))
  }

  /** Splitting at the first point: a decimal literal is a run of digits, or two runs of
      digits around that point, not both empty. */
  lemma DecimalLiteralShape(s: string, k: nat)
    requires k == IndexOf(s, '.')
    ensures IsDecimalLiteral(s) <==>
      if k == |s| then s != [] && AllDigits(s)
      else AllDigits(s[..k]) && AllDigits(s[k + 1..]) && |s| > 1
  {
    if k == |s| {
      if s != [] && AllDigits(s) {
        assert IsDigit(s[0]);
      }
    } else {
      if IsDecimalLiteral(s) {
        forall j | k < j < |s| ensures IsDigit(s[j]) {
          assert s[k] == '.';
        }
        var i :| 0 <= i < |s| && IsDigit(s[i]);
        assert i != k;
      }
      if AllDigits(s[..k]) && AllDigits(s[k + 1..]) && |s| > 1 {
        forall i | 0 <= i < |s| ensures IsDigit(s[i]) || s[i] == '.' {
          if i < k { assert s[..k][i] == s[i]; }
          else if i > k { assert s[k + 1..][i - k - 1] == s[i]; }
        }
        var d := if k > 0 then 0 else k + 1;
        assert IsDigit(s[d]) by {
          if k > 0 { assert s[..k][0] == s[0]; } else { assert s[k + 1..][0] == s[k + 1]; }
        }
        forall i, j | 0 <= i < j < |s| && s[i] == '.' ensures s[j] != '.' {
          assert s[k + 1..][j - k - 1] == s[j];
        }
      }
    }
  }

  /** An unsigned decimal literal, parsed: digits, optionally followed by `.` and more
      digits. */
  function ParseUnsignedDecimal(s: string): (r: Option<real>)
    ensures r.Some? ==> s != [] && r.value >= 0.0
  {
    var k := IndexOf(s, '.');
    if k == |s| then
      if s != [] && AllDigits(s) then Some(DigitsValue(s) as real) else None
    else
      var whole, fraction := s[..k], s[k + 1..];
      if AllDigits(whole) && AllDigits(fraction) && |whole| + |fraction| > 0 then
        Some(DecimalValue(whole, fraction))
      else None
  }

  /** `float(s)` on the decimal subset of Python's grammar: surrounding whitespace, an
      optional sign, then an unsigned decimal literal. `None` stands for `ValueError`. */
  function ParseFloat(s: string): (r: Option<real>)
    ensures r.Some? ==> Strip(s) != [] && (r.value < 0.0 ==> Strip(s)[0] == '-')
  {
    var t := Strip(s);
    if t != [] && (t[0] == '+' || t[0] == '-') then
      match ParseUnsignedDecimal(t[1..])
      case None => None
      case Some(v) => Some(if t[0] == '-' then -v else v)
    else
      ParseUnsignedDecimal(t)
  }

  /** The unsigned parser accepts exactly the decimal literals. */
  lemma UnsignedDecimalAccepts(s: string)
    ensures ParseUnsignedDecimal(s).Some? <==> IsDecimalLiteral(s)
  {
    DecimalLiteralShape(s, IndexOf(s, '.'));
  }

  /** `float` accepts exactly the strings that trim to an optionally signed decimal literal
      (so `2.4¢/KG` raises). */
  lemma ParseFloatAccepts(s: string)
    ensures ParseFloat(s).Some? <==> IsFloatLiteral(Strip(s))
  {
    var t := Strip(s);
    if t != [] && (t[0] == '+' || t[0] == '-') {
      assert !IsDecimalLiteral(t) by { assert !IsDigit(t[0]) && t[0] != '.'; }
      UnsignedDecimalAccepts(t[1..]);
    } else {
      UnsignedDecimalAccepts(t);
    }
  }

  function DigitChar(d: nat): (c: char)
    requires d < 10
    ensures IsDigit(c) && DigitValue(c) == d
  {
    ('0' as int + d) as char
  }

  /** `str(n)` for a non-negative integer. */
  function NatToDecimal(n: nat): (s: string)
    ensures s != [] && AllDigits(s)
  {
    if n < 10 then [DigitChar(n)] else NatToDecimal(n / 10) + [DigitChar(n % 10)]
  }

  lemma {:induction false} NatToDecimalValue(n: nat)
    ensures DigitsValue(NatToDecimal(n)) == n
  {
    var s := NatToDecimal(n);
    if n >= 10 {
      NatToDecimalValue(n / 10);
      assert s[..|s| - 1] == NatToDecimal(n / 10);
    }
  }

  lemma DigitsNotSpace(s: string)
    requires AllDigits(s)
    ensures Strip(s) == s
  {
    if s == [] {
      assert StripLeft(s) == s;
    } else {
      var first, last := s[0], s[|s| - 1];
      assert IsDigit(first) && IsDigit(last);
      DigitNotSpace(first);
      DigitNotSpace(last);
      StripUnpadded(s);
    }
  }

  lemma DigitNotSpace(c: char)
    requires IsDigit(c)
    ensures !IsSpace(c)
  {
  }

  lemma DigitsHaveNoPoint(s: string)
    requires AllDigits(s)
    ensures IndexOf(s, '.') == |s|
  {
  }

  /** `float` of a non-empty string of digits is the number they spell (`"5"`, `"007"`). */
  lemma WholeLiteralParses(s: string)
    requires s != [] && AllDigits(s)
    ensures ParseFloat(s) == Some(DigitsValue(s) as real)
  {
    DigitsNotSpace(s);
    WholeUnsignedParses(s);
    assert IsDigit(s[0]);
  }

  /** A non-empty string of digits is an unsigned literal worth the number it spells. */
  lemma WholeUnsignedParses(s: string)
    requires s != [] && AllDigits(s)
    ensures ParseUnsignedDecimal(s) == Some(DigitsValue(s) as real)
  {
    DigitsHaveNoPoint(s);
  }

  /** `float(str(n)) == n`: the decimal rendering of a whole number parses back to it. */
  lemma FloatOfDecimal(n: nat)
    ensures ParseFloat(NatToDecimal(n)) == Some(n as real)
  {
    NatToDecimalValue(n);
    WholeLiteralParses(NatToDecimal(n));
  }

  /** The first `c` of `a + b` lies in `b` when `a` has none. */
  lemma {:induction false} IndexOfAfter(a: string, b: string, c: char)
    requires c !in a
    ensures IndexOf(a + b, c) == |a| + IndexOf(b, c)
  {
    if a == [] {
      assert a + b == b;
    } else {
      assert (a + b)[0] == a[0] && (a + b)[1..] == a[1..] + b;
      IndexOfAfter(a[1..], b, c);
    }
  }

  /** The unsigned literal `w.f` is w + f / 10^|f|. */
  lemma UnsignedDecimalParses(w: string, f: string)
    requires AllDigits(w) && AllDigits(f) && |w| + |f| > 0
    ensures ParseUnsignedDecimal(w + "." + f) == Some(DecimalValue(w, f))
  {
    var s := w + "." + f;
    assert forall i :: 0 <= i < |w| ==> w[i] != '.';
    IndexOfAfter(w, "." + f, '.');
    assert s == w + ("." + f);
    assert s[..|w|] == w && s[|w| + 1..] == f;
  }

  /** `float("w.f")` is w + f / 10^|f| for any digit strings `w` and `f`, not both empty
      (`"2.5"` gives 2.5, `".5"` gives 0.5, `"7."` gives 7). */
  lemma DecimalLiteralParses(w: string, f: string)
    requires AllDigits(w) && AllDigits(f) && |w| + |f| > 0
    ensures ParseFloat(w + "." + f) == Some(DecimalValue(w, f))
  {
    UnsignedDecimalParses(w, f);
    DecimalLiteralUnpadded(w, f);
    StripUnpadded(w + "." + f);
  }

  /** A minus sign in front of an unsigned literal that does not end in whitespace negates
      its value. */
  lemma NegatedLiteralParses(u: string, v: real)
    requires ParseUnsignedDecimal(u) == Some(v) && !IsSpace(u[|u| - 1])
    ensures ParseFloat("-" + u) == Some(-v)
  {
    var s := "-" + u;
    assert s[1..] == u && s[|s| - 1] == u[|u| - 1];
    StripUnpadded(s);
  }

  /** The literal `w.f` neither starts nor ends with whitespace. */
  lemma DecimalLiteralUnpadded(w: string, f: string)
    requires AllDigits(w) && AllDigits(f)
    ensures var s := w + "." + f; !IsSpace(s[0]) && !IsSpace(s[|s| - 1])
  {
    var s := w + "." + f;
    if w != [] { DigitNotSpace(w[0]); assert s[0] == w[0]; } else { assert s[0] == '.'; }
    if f != [] { DigitNotSpace(f[|f| - 1]); assert s[|s| - 1] == f[|f| - 1]; } else { assert s[|s| - 1] == '.'; }
  }

  /** `float("-d")` is minus the number the digits spell (`"-5"` gives -5). */
  lemma NegativeWholeParses(d: string)
    requires d != [] && AllDigits(d)
    ensures ParseFloat("-" + d) == Some(-(DigitsValue(d) as real))
  {
    WholeUnsignedParses(d);
    DigitNotSpace(d[|d| - 1]);
    NegatedLiteralParses(d, DigitsValue(d) as real);
  }

  lemma UpperKeepsNonLetters(s: string)
    requires forall i :: 0 <= i < |s| ==> !('a' <= s[i] <= 'z')
    ensures Upper(s) == s
  {
  }

  lemma {:induction false} RemoveAllAppend(a: string, b: string, c: char)
    ensures RemoveAll(a + b, c) == RemoveAll(a, c) + RemoveAll(b, c)
  {
    if a == [] {
      assert a + b == b;
    } else {
      assert (a + b)[0] == a[0] && (a + b)[1..] == a[1..] + b;
      RemoveAllAppend(a[1..], b, c);
    }
  }

  lemma {:induction false} RemoveAllAbsent(s: string, c: char)
    requires c !in s
    ensures RemoveAll(s, c) == s
  {
    if s != [] {
      RemoveAllAbsent(s[1..], c);
    }
  }

  /** A string that neither starts nor ends with whitespace is its own `strip()`. */
  lemma StripUnpadded(s: string)
    requires s != [] && !IsSpace(s[0]) && !IsSpace(s[|s| - 1])
    ensures Strip(s) == s
  {
    assert StripLeft(s) == s;
  }

  /** `strip()` twice is `strip()` once. */
  lemma StripIdempotent(s: string)
    ensures Strip(Strip(s)) == Strip(s)
  {
    var t := Strip(s);
    if t == [] {
      assert StripLeft(t) == t;
    } else {
      var u := StripLeft(s);
      assert t == u[..|t|] && t[0] == u[0];
      StripUnpadded(t);
    }
  }

  /** `float` rejects a trimmed string that starts with something other than a digit, a
      sign or a decimal point (`"NONE"`, `"FREE"`). */
  lemma ParseFloatRejectsWord(s: string)
    requires s != [] && !IsSpace(s[0]) && !IsSpace(s[|s| - 1])
    requires !IsDigit(s[0]) && s[0] != '+' && s[0] != '-' && s[0] != '.'
    ensures ParseFloat(s) == None
  {
    StripUnpadded(s);
    var k := IndexOf(s, '.');
    if k < |s| {
      assert !AllDigits(s[..k]) by { assert s[..k][0] == s[0]; }
    }
  }
}

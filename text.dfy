/**
 * The few string operations the loader applies to one input line:
 * whitespace splitting (Python's `str.split()` with no separator),
 * `startswith`, the text before the first '-' of the date token,
 * and the integer and decimal conversions of `int()` and `float()`.
 */
module Text {
  import opened Wrappers

  /** ASCII whitespace as `str.split()` treats it: space, \t \n \v \f \r and the separators 0x1C-0x1F. */
  predicate IsSpace(c: char) {
    var n := c as int;
    n == 32 || 9 <= n <= 13 || 28 <= n <= 31
  }

  predicate NoSpace(s: string) {
    forall i :: 0 <= i < |s| ==> !IsSpace(s[i])
  }

  predicate AllSpace(s: string) {
    forall i :: 0 <= i < |s| ==> IsSpace(s[i])
  }

  predicate StartsWith(s: string, prefix: string) {
    |prefix| <= |s| && s[..|prefix|] == prefix
  }

  /** Number of whitespace characters at the front of `s`. */
  function LeadingSpaces(s: string): (n: nat)
    ensures n <= |s|
    ensures forall i :: 0 <= i < n ==> IsSpace(s[i])
    ensures n == |s| || !IsSpace(s[n])
  {
    if s == [] || !IsSpace(s[0]) then 0 else 1 + LeadingSpaces(s[1..])
  }

  /** Number of non-whitespace characters at the front of `s`. */
  function LeadingWord(s: string): (n: nat)
    ensures n <= |s|
    ensures forall i :: 0 <= i < n ==> !IsSpace(s[i])
    ensures n == |s| || IsSpace(s[n])
  {
    if s == [] || IsSpace(s[0]) then 0 else 1 + LeadingWord(s[1..])
  }

  /** The maximal runs of non-whitespace characters of `s`, in order (`s.split()`). */
  function Split(s: string): (fields: seq<string>)
    ensures forall i :: 0 <= i < |fields| ==> fields[i] != [] && NoSpace(fields[i])
    decreases |s|
  {
    var a := LeadingSpaces(s);
    if a == |s| then []
    else
      var rest := s[a..];
      var b := LeadingWord(rest);
      [rest[..b]] + Split(rest[b..])
  }

  /** Fields joined by single spaces: the shape of a data line. */
  function JoinFields(fields: seq<string>): string {
    if fields == [] then ""
    else if |fields| == 1 then fields[0]
    else fields[0] + " " + JoinFields(fields[1..])
  }

  lemma SplitSkipsSpace(c: char, s: string)
    requires IsSpace(c)
    ensures Split([c] + s) == Split(s)
  {
    assert ([c] + s)[1..] == s;
    var a := LeadingSpaces(s);
    assert LeadingSpaces([c] + s) == a + 1;
    if a < |s| {
      assert ([c] + s)[a + 1..] == s[a..];
    }
  }

  /** A run of whitespace in front of a string does not change its fields. */
  lemma {:induction false} SkipRun(sep: string, s: string)
    requires AllSpace(sep)
    ensures Split(sep + s) == Split(s)
  {
    if sep == [] {
      assert sep + s == s;
    } else {
      assert sep + s == [sep[0]] + (sep[1..] + s);
      SkipRun(sep[1..], s);
      SplitSkipsSpace(sep[0], sep[1..] + s);
    }
  }

  /** A word followed by a run of whitespace is the first field, whatever follows the run. */
  lemma SplitAfterRun(w: string, sep: string, more: string, tail: string)
    requires w != [] && NoSpace(w)
    requires sep != [] && AllSpace(sep)
    ensures Split(w + sep + more + tail) == [w] + Split(more + tail)
  {
    var rest := more + tail;
    assert w + sep + more + tail == w + (sep + rest);
    assert (sep + rest)[0] == sep[0];
    SplitFirstField(w, sep + rest);
    SkipRun(sep, rest);
  }

  lemma SplitOfSpaces(s: string)
    requires AllSpace(s)
    ensures Split(s) == []
  {
  }

  lemma LeadingWordOf(w: string, t: string)
    requires NoSpace(w)
    requires t == [] || IsSpace(t[0])
    ensures LeadingWord(w + t) == |w|
  {
    assert forall i :: 0 <= i < |w| ==> (w + t)[i] == w[i];
    if t != [] {
      assert (w + t)[|w|] == t[0];
    }
  }

  /** A leading word followed by whitespace or the end of the line is the first field. */
  lemma SplitFirstField(w: string, rest: string)
    requires w != [] && NoSpace(w)
    requires rest == [] || IsSpace(rest[0])
    ensures Split(w + rest) == [w] + Split(rest)
  {
    var s := w + rest;
    assert s[0] == w[0];
    assert LeadingSpaces(s) == 0;
    assert s[0..] == s;
    LeadingWordOf(w, rest);
    assert s[..|w|] == w;
    assert s[|w|..] == rest;
  }

  lemma DigitsHaveNoSpace(s: string)
    requires AllDigits(s)
    ensures NoSpace(s) && forall i :: 0 <= i < |s| ==> s[i] != '-'
  {
    forall i | 0 <= i < |s| ensures !IsSpace(s[i]) && s[i] != '-' {
      assert IsDigit(s[i]);
    }
  }

  lemma NoSpaceJoin(a: string, sep: string, b: string)
    requires NoSpace(a) && NoSpace(sep) && NoSpace(b)
    ensures NoSpace(a + sep + b)
  {
    var s := a + sep + b;
    forall i | 0 <= i < |s| ensures !IsSpace(s[i]) {
      if i < |a| { assert s[i] == a[i]; }
      else if i < |a| + |sep| { assert s[i] == sep[i - |a|]; }
      else { assert s[i] == b[i - |a| - |sep|]; }
    }
  }

  /** Splitting undoes joining, whatever whitespace (a newline, say) ends the line. */
  lemma {:induction false} SplitJoin(fields: seq<string>, tail: string)
    requires forall i :: 0 <= i < |fields| ==> fields[i] != [] && NoSpace(fields[i])
    requires AllSpace(tail)
    ensures Split(JoinFields(fields) + tail) == fields
  {
    if fields == [] {
      assert JoinFields(fields) + tail == tail;
      SplitOfSpaces(tail);
    } else {
      var w := fields[0];
      var rest := if |fields| == 1 then tail else " " + JoinFields(fields[1..]) + tail;
      assert JoinFields(fields) + tail == w + rest;
      if |fields| == 1 {
        SplitOfSpaces(tail);
      } else {
        assert rest == [' '] + (JoinFields(fields[1..]) + tail);
        SplitSkipsSpace(' ', JoinFields(fields[1..]) + tail);
        SplitJoin(fields[1..], tail);
      }
      SplitFirstField(w, rest);
    }
  }

  /** Python's `s.split("-")[0]`: the text before the first '-', or all of `s`. */
  function BeforeDash(s: string): (t: string)
    ensures |t| <= |s| && t == s[..|t|]
    ensures forall i :: 0 <= i < |t| ==> t[i] != '-'
    ensures |t| < |s| ==> s[|t|] == '-'
  {
    if s == [] || s[0] == '-' then [] else [s[0]] + BeforeDash(s[1..])
  }

  /** The text before the first '-' of `<w>-<rest>` is `w` when `w` has no '-'. */
  lemma BeforeDashOf(w: string, rest: string)
    requires forall i :: 0 <= i < |w| ==> w[i] != '-'
    ensures BeforeDash(w + "-" + rest) == w
  {
    var s := w + "-" + rest;
    var t := BeforeDash(s);
    assert forall i :: 0 <= i < |w| ==> s[i] == w[i];
    assert s[|w|] == '-';
    assert |t| == |w|;
  }

  predicate IsDigit(c: char) {
    '0' <= c <= '9'
  }

  predicate AllDigits(s: string) {
    forall i :: 0 <= i < |s| ==> IsDigit(s[i])
  }

  /** The number a string of decimal digits denotes (0 for the empty string). */
  function DigitsValue(s: string): nat
    requires AllDigits(s)
  {
    if s == [] then 0
    else DigitsValue(s[..|s| - 1]) * 10 + (s[|s| - 1] as int - '0' as int)
  }

  function Pow10(n: nat): (p: nat)
    ensures p > 0
  {
    if n == 0 then 1 else 10 * Pow10(n - 1)
  }

  /** The decimal digits of `n`, most significant first, with no leading zeros. */
  function NatToString(n: nat): string {
    if n < 10 then [('0' as int + n) as char]
    else NatToString(n / 10) + [('0' as int + n % 10) as char]
  }

  lemma {:induction false} NatToStringDigits(n: nat)
    ensures NatToString(n) != [] && AllDigits(NatToString(n))
    ensures DigitsValue(NatToString(n)) == n
  {
    if n >= 10 {
      NatToStringDigits(n / 10);
      var s := NatToString(n);
      assert s[..|s| - 1] == NatToString(n / 10);
    }
  }

  /**
   * Python's `int()` applied to a token that contains no whitespace:
   * an optional sign followed by one or more ASCII digits.
   */
  function ParseInt(s: string): Option<int> {
    if |s| > 0 && (s[0] == '+' || s[0] == '-') then
      var digits := s[1..];
      if digits != [] && AllDigits(digits) then
        Some(if s[0] == '-' then -(DigitsValue(digits) as int) else DigitsValue(digits))
      else None
    else if s != [] && AllDigits(s) then Some(DigitsValue(s))
    else None
  }

  /** Index of the first '.' in `s`, or |s| when there is none. */
  function DotIndex(s: string): (k: nat)
    ensures k <= |s|
    ensures forall i :: 0 <= i < k ==> s[i] != '.'
    ensures k < |s| ==> s[k] == '.'
  {
    if s == [] || s[0] == '.' then 0 else 1 + DotIndex(s[1..])
  }

  /** The number written `<whole>.<frac>` in decimal notation. */
  function DecimalValue(whole: string, frac: string): real
    requires AllDigits(whole) && AllDigits(frac)
  {
    DigitsValue(whole) as real + DigitsValue(frac) as real / Pow10(|frac|) as real
  }

  /** Unsigned plain decimal notation: digits, at most one point, at least one digit. */
  function UnsignedDecimal(s: string): Option<real> {
    var k := DotIndex(s);
    var whole := s[..k];
    var frac := if k < |s| then s[k + 1..] else [];
    if AllDigits(whole) && AllDigits(frac) && |whole| + |frac| > 0 then
      Some(DecimalValue(whole, frac))
    else None
  }

  /**
   * Python's `float()` applied to a token that contains no whitespace,
   * restricted to plain decimal notation with an optional sign.
   */
  function ParseDecimal(s: string): Option<real> {
    if |s| > 0 && s[0] == '-' then
      match UnsignedDecimal(s[1..])
      case Some(x) => Some(-x)
      case None => None
    else if |s| > 0 && s[0] == '+' then UnsignedDecimal(s[1..])
    else UnsignedDecimal(s)
  }

  /** `int()` reads back what `NatToString` writes. */
  lemma ParseIntNatToString(n: nat)
    ensures ParseInt(NatToString(n)) == Some(n)
    ensures ParseInt("+" + NatToString(n)) == Some(n)
    ensures n > 0 ==> ParseInt("-" + NatToString(n)) == Some(-(n as int))
  {
    NatToStringDigits(n);
    assert ("+" + NatToString(n))[1..] == NatToString(n);
    assert ("-" + NatToString(n))[1..] == NatToString(n);
  }

  lemma DotIndexOf(w: string, frac: string)
    requires forall i :: 0 <= i < |w| ==> w[i] != '.'
    ensures DotIndex(w + "." + frac) == |w|
  {
    var s := w + "." + frac;
    assert forall i :: 0 <= i < |w| ==> s[i] == w[i];
    assert s[|w|] == '.';
  }

  /** `float()` reads `<digits>.<digits>` as the whole part plus the scaled fraction. */
  lemma ParseDecimalPointed(whole: string, frac: string)
    requires whole != [] && AllDigits(whole) && AllDigits(frac)
    ensures ParseDecimal(whole + "." + frac) == Some(DecimalValue(whole, frac))
  {
    var s := whole + "." + frac;
    assert s[0] == whole[0];
    DotIndexOf(whole, frac);
    assert s[..|whole|] == whole;
    assert s[|whole| + 1..] == frac;
  }
}

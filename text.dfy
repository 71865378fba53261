/** Character classes, string helpers and number parsing shared by every
    revision of the export pipeline. Python's `str` methods and regular
    expression classes are Unicode-aware; this model restricts them to ASCII. */
module Text {

  datatype Option<+T> = None | Some(value: T)

  /** Characters `str.isspace()` and the regex class `\s` accept (ASCII part). */
  predicate IsSpace(c: char) {
    c == ' ' || c == '\t' || c == '\n' || c == '\r' || c == '\U{0B}' || c == '\U{0C}'
    || ('\U{1C}' <= c <= '\U{1F}')
  }

  /** The regex class `\d` (ASCII part). */
  predicate IsDigit(c: char) {
    '0' <= c <= '9'
  }

  /** The regex class `\w` (ASCII part): letters, digits and underscore. */
  predicate IsWord(c: char) {
    ('a' <= c <= 'z') || ('A' <= c <= 'Z') || IsDigit(c) || c == '_'
  }

  predicate AllDigits(s: string) {
    forall i :: 0 <= i < |s| ==> IsDigit(s[i])
  }

  /** `str.lower()` on ASCII letters. */
  function LowerChar(c: char): (r: char)
    ensures !('A' <= r <= 'Z')
    ensures IsDigit(r) <==> IsDigit(c)
    ensures IsSpace(r) <==> IsSpace(c)
  {
    if 'A' <= c <= 'Z' then (c as int + 32) as char else c
  }

  function Lower(s: string): (r: string)
    ensures |r| == |s|
    ensures forall i :: 0 <= i < |s| ==> r[i] == LowerChar(s[i])
  {
    if s == [] then [] else [LowerChar(s[0])] + Lower(s[1..])
  }

  lemma {:induction false} LowerAppend(a: string, b: string)
    ensures Lower(a + b) == Lower(a) + Lower(b)
  {
    if a == [] {
      assert a + b == b;
    } else {
      assert (a + b)[1..] == a[1..] + b;
      LowerAppend(a[1..], b);
    }
  }

  /** Drops leading whitespace. */
  function TrimLeft(s: string): (r: string)
    ensures |r| <= |s| && r == s[|s| - |r|..]
    ensures r != [] ==> !IsSpace(r[0])
    ensures forall i :: 0 <= i < |s| - |r| ==> IsSpace(s[i])
  {
    if s != [] && IsSpace(s[0]) then TrimLeft(s[1..]) else s
  }

  /** Drops trailing whitespace. */
  function TrimRight(s: string): (r: string)
    ensures |r| <= |s| && r == s[..|r|]
    ensures r != [] ==> !IsSpace(r[|r| - 1])
    ensures forall i :: |r| <= i < |s| ==> IsSpace(s[i])
  {
    if s != [] && IsSpace(s[|s| - 1]) then TrimRight(s[..|s| - 1]) else s
  }

  /** `str.strip()`: no whitespace is left at either end. */
  function Strip(s: string): (r: string)
    ensures r != [] ==> !IsSpace(r[0]) && !IsSpace(r[|r| - 1])
  {
    TrimRight(TrimLeft(s))
  }

  /** The stripped text is a slice of the input, and everything cut off is
      whitespace. */
  lemma StripIsSlice(s: string)
    ensures SliceWithSpaceAround(s, Strip(s), |s| - |TrimLeft(s)|)
  {
    var l := TrimLeft(s);
    PrefixOfSuffix(s, l, TrimRight(l), |s| - |l|);
  }

  /** A prefix `r` of the suffix `l == s[i..]`, followed in `l` only by
      whitespace and preceded in `s` only by whitespace. */
  lemma PrefixOfSuffix(s: string, l: string, r: string, i: nat)
    requires i <= |s| && l == s[i..] && |r| <= |l| && r == l[..|r|]
    requires forall k :: 0 <= k < i ==> IsSpace(s[k])
    requires forall k :: |r| <= k < |l| ==> IsSpace(l[k])
    ensures SliceWithSpaceAround(s, r, i)
  {
    forall k | i + |r| <= k < |s| ensures IsSpace(s[k]) {
      assert s[k] == l[k - i];
    }
  }

  /** `r` is `s[i..i + |r|]` and everything outside that slice is whitespace. */
  predicate SliceWithSpaceAround(s: string, r: string, i: nat) {
    i + |r| <= |s| && r == s[i..i + |r|]
    && (forall k :: 0 <= k < i ==> IsSpace(s[k]))
    && (forall k :: i + |r| <= k < |s| ==> IsSpace(s[k]))
  }

  /** A string that `.strip()` reduces to the empty (falsy) string. */
  predicate IsBlank(s: string) {
    forall i :: 0 <= i < |s| ==> IsSpace(s[i])
  }

  lemma StripEmptyIffBlank(s: string)
    ensures Strip(s) == [] <==> IsBlank(s)
  {
    StripIsSlice(s);
    if Strip(s) != [] {
      assert s[|s| - |TrimLeft(s)|] == Strip(s)[0];
    }
  }

  predicate StartsWith(s: string, p: string) {
    |p| <= |s| && s[..|p|] == p
  }

  /** Python's `needle in hay` for strings. */
  predicate Contains(hay: string, needle: string) {
    StartsWith(hay, needle) || (hay != [] && Contains(hay[1..], needle))
  }

  predicate OccursAt(hay: string, needle: string, i: nat) {
    i + |needle| <= |hay| && hay[i..i + |needle|] == needle
  }

  lemma ContainsAt(hay: string, needle: string, i: nat)
    requires OccursAt(hay, needle, i)
    ensures Contains(hay, needle)
  {
    if i > 0 {
      assert OccursAt(hay[1..], needle, i - 1);
      ContainsAt(hay[1..], needle, i - 1);
    }
  }

  lemma {:induction false} ContainsWitness(hay: string, needle: string)
    requires Contains(hay, needle)
    ensures exists i: nat :: OccursAt(hay, needle, i)
  {
    if StartsWith(hay, needle) {
      assert OccursAt(hay, needle, 0);
    } else {
      ContainsWitness(hay[1..], needle);
      var i: nat :| OccursAt(hay[1..], needle, i);
      assert hay[1..][i..i + |needle|] == hay[i + 1..i + 1 + |needle|];
      assert OccursAt(hay, needle, i + 1);
    }
  }

  /** A substring of `b` is a substring of `a + b + c`. */
  lemma ContainsInMiddle(a: string, b: string, c: string, needle: string)
    requires Contains(b, needle)
    ensures Contains(a + b + c, needle)
  {
    ContainsWitness(b, needle);
    var i: nat :| OccursAt(b, needle, i);
    assert (a + b + c)[|a| + i..|a| + i + |needle|] == b[i..i + |needle|];
    ContainsAt(a + b + c, needle, |a| + i);
  }

  /** `sep.join(xs)`. */
  function Join(sep: string, xs: seq<string>): (r: string)
    ensures xs == [] ==> r == []
    ensures |xs| == 1 ==> r == xs[0]
  {
    if xs == [] then []
    else if |xs| == 1 then xs[0]
    else xs[0] + sep + Join(sep, xs[1..])
  }

  /** Every joined element occurs in the result, with the separator text
      (or nothing) on either side. */
  lemma {:induction false} JoinContainsElement(sep: string, xs: seq<string>, k: nat)
    requires k < |xs|
    ensures exists a, c :: Join(sep, xs) == a + xs[k] + c
  {
    if |xs| == 1 {
      assert Join(sep, xs) == [] + xs[0] + [];
    } else if k == 0 {
      assert Join(sep, xs) == [] + xs[0] + (sep + Join(sep, xs[1..]));
    } else {
      JoinContainsElement(sep, xs[1..], k - 1);
      var a, c :| Join(sep, xs[1..]) == a + xs[1..][k - 1] + c;
      assert Join(sep, xs) == (xs[0] + sep + a) + xs[k] + c;
    }
  }

  function DigitChar(d: nat): (c: char)
    requires d < 10
    ensures IsDigit(c)
  {
    ('0' as int + d) as char
  }

  function DigitValue(c: char): (d: nat)
    requires IsDigit(c)
    ensures d < 10 && DigitChar(d) == c
  {
    c as int - '0' as int
  }

  /** Decimal text of a natural number, as `str(n)` writes it. */
  function NatToString(n: nat): (r: string)
    ensures r != [] && AllDigits(r)
    ensures n > 0 ==> r[0] != '0'
  {
    if n < 10 then [DigitChar(n)] else NatToString(n / 10) + [DigitChar(n % 10)]
  }

  /** Value of a run of ASCII digits read as a decimal numeral. */
  function DigitsValue(s: string): (v: nat)
    requires AllDigits(s)
  {
    if s == [] then 0 else DigitsValue(s[..|s| - 1]) * 10 + DigitValue(s[|s| - 1])
  }

  lemma {:induction false} DigitsValueOfNatToString(n: nat)
    ensures DigitsValue(NatToString(n)) == n
  {
    if n >= 10 {
      var s := NatToString(n);
      assert s[..|s| - 1] == NatToString(n / 10);
      DigitsValueOfNatToString(n / 10);
    }
  }

  /** Zero-padded decimal text of `n` at least `width` characters long, as
      `f"{n:0{width}d}"` writes it. */
  function PadNat(n: nat, width: nat): (r: string)
    ensures |r| >= width && AllDigits(r)
    ensures 1 <= width && n < Pow10(width) ==> |r| == width
    ensures DigitsValue(r) == n
  {
    var s := NatToString(n);
    NatToStringLength(n, width);
    DigitsValueOfNatToString(n);
    if |s| >= width then s else PadDigitsValue(width - |s|, s); PadNat0(width - |s|) + s
  }

  lemma {:induction false} NatToStringLength(n: nat, k: nat)
    ensures 1 <= k && n < Pow10(k) ==> |NatToString(n)| <= k
  {
    if 1 <= k && n < Pow10(k) && n >= 10 {
      NatToStringLength(n / 10, k - 1);
    }
  }

  function PadNat0(k: nat): (r: string)
    ensures |r| == k && AllDigits(r)
  {
    if k == 0 then [] else ['0'] + PadNat0(k - 1)
  }

  lemma PadDigitsValue(k: nat, s: string)
    requires AllDigits(s)
    ensures AllDigits(PadNat0(k) + s) && DigitsValue(PadNat0(k) + s) == DigitsValue(s)
  {
    if s == [] {
      ZerosValue(k);
      assert PadNat0(k) + s == PadNat0(k);
    } else {
      var t := PadNat0(k) + s;
      assert t[..|t| - 1] == PadNat0(k) + s[..|s| - 1];
      PadDigitsValue(k, s[..|s| - 1]);
    }
  }

  lemma ZerosValue(k: nat)
    ensures DigitsValue(PadNat0(k)) == 0
  {
    if k > 0 {
      var z := PadNat0(k);
      assert z[..|z| - 1] == PadNat0(k - 1) by {
        PadNat0Snoc(k - 1);
      }
    }
  }

  lemma PadNat0Snoc(k: nat)
    ensures PadNat0(k + 1) == PadNat0(k) + ['0']
  {
    if k > 0 {
      PadNat0Snoc(k - 1);
    }
  }

  /** Python's `int(s)` on text: surrounding whitespace, an optional sign and
      one or more ASCII digits. `None` stands for the `ValueError` it raises
      on anything else. */
  function ParseInt(s: string): (r: Option<int>)
    ensures r.Some? ==> Strip(s) != []
  {
    var t := Strip(s);
    if t == [] then None
    else if t[0] == '-' || t[0] == '+' then
      var ds := t[1..];
      if ds != [] && AllDigits(ds) then
        var v: int := DigitsValue(ds);
        Some(if t[0] == '-' then -v else v)
      else None
    else if AllDigits(t) then Some(DigitsValue(t))
    else None
  }

  lemma {:induction false} ParseIntOfNatToString(n: nat)
    ensures ParseInt(NatToString(n)) == Some(n)
  {
    ParseIntOfDigits(NatToString(n));
    DigitsValueOfNatToString(n);
  }

  /** A non-empty run of digits is read as its decimal value. */
  lemma ParseIntOfDigits(s: string)
    requires s != [] && AllDigits(s)
    ensures ParseInt(s) == Some(DigitsValue(s))
  {
    assert IsDigit(s[0]) && IsDigit(s[|s| - 1]);
    assert TrimLeft(s) == s;
    assert TrimRight(s) == s;
    assert s[0] != '-' && s[0] != '+';
  }

  /** A text with no whitespace at its ends that starts with a digit and
      holds a non-digit further on (an ISO date, say) is not an integer. */
  lemma ParseIntRejectsInnerNonDigit(s: string, k: nat)
    requires 0 < k < |s| && IsDigit(s[0]) && !IsDigit(s[k]) && !IsSpace(s[|s| - 1])
    ensures ParseInt(s).None?
  {
    assert TrimLeft(s) == s;
    assert TrimRight(s) == s;
    assert !AllDigits(s);
  }

  /** Python's `float(s)` restricted to plain decimal notation: whitespace,
      optional sign, digits with at most one decimal point, at least one
      digit. */
  function ParseDecimal(s: string): (r: Option<real>)
    ensures r.Some? ==> Strip(s) != []
  {
    var t := Strip(s);
    if t == [] then None
    else
      var neg := t[0] == '-';
      var body := if t[0] == '-' || t[0] == '+' then t[1..] else t;
      match UnsignedDecimal(body)
      case None => None
      case Some(v) => Some(if neg then -v else v)
  }

  function UnsignedDecimal(s: string): (r: Option<real>)
    ensures r.Some? ==> r.value >= 0.0
    ensures s != [] && AllDigits(s) ==> r == Some(DigitsValue(s) as real)
  {
    if s != [] && AllDigits(s) then Some(DigitsValue(s) as real)
    else if exists i :: 0 <= i < |s| && s[i] == '.' then
      var i := FirstDot(s);
      var ip := s[..i];
      var fp := s[i + 1..];
      if AllDigits(ip) && AllDigits(fp) && |ip| + |fp| > 0 then
        Some(DigitsValue(ip) as real + DigitsValue(fp) as real / Pow10(|fp|) as real)
      else None
    else None
  }

  function FirstDot(s: string): (i: nat)
    requires exists i :: 0 <= i < |s| && s[i] == '.'
    ensures i < |s| && s[i] == '.'
  {
    if s[0] == '.' then 0 else 1 + FirstDot(s[1..])
  }

  function Pow10(k: nat): (p: nat)
    ensures p >= 1
  {
    if k == 0 then 1 else 10 * Pow10(k - 1)
  }

  /** `float` agrees with `int` on integer text. */
  lemma ParseDecimalOfInteger(s: string)
    requires ParseInt(s).Some?
    ensures ParseDecimal(s) == Some(ParseInt(s).value as real)
  {
    var t := Strip(s);
    if t[0] == '-' || t[0] == '+' {
      var v: int := DigitsValue(t[1..]);
      assert UnsignedDecimal(t[1..]) == Some(v as real);
      assert (-v) as real == -(v as real);
    } else {
      assert UnsignedDecimal(t) == Some(DigitsValue(t) as real);
    }
  }

  /** Text without upper-case ASCII letters is its own lower-case form. */
  lemma LowerOfLower(s: string)
    requires forall i :: 0 <= i < |s| ==> !('A' <= s[i] <= 'Z')
    ensures Lower(s) == s
  {
    assert forall i :: 0 <= i < |s| ==> Lower(s)[i] == s[i];
  }

  /** Every character of an occurring needle is a character of the haystack. */
  lemma OccurrenceChars(hay: string, needle: string, i: nat)
    requires OccursAt(hay, needle, i)
    ensures forall j :: 0 <= j < |needle| ==> needle[j] in hay
  {
    forall j | 0 <= j < |needle| ensures needle[j] in hay {
      assert needle[j] == hay[i + j];
    }
  }

  /** A needle holding a character the haystack lacks does not occur in it. */
  lemma NotContainsByChar(hay: string, needle: string, c: char)
    requires c in needle && c !in hay
    ensures !Contains(hay, needle)
  {
    if Contains(hay, needle) {
      ContainsWitness(hay, needle);
      var i: nat :| OccursAt(hay, needle, i);
      OccurrenceChars(hay, needle, i);
    }
  }

  /** A needle that matches at no offset does not occur. */
  lemma NotContainsAtAny(hay: string, needle: string)
    requires forall i: nat :: !OccursAt(hay, needle, i)
    ensures !Contains(hay, needle)
  {
    if Contains(hay, needle) {
      ContainsWitness(hay, needle);
    }
  }
}

/** `anonymize_text`, identical in the three revisions that have it: four
    `re.sub` passes (e-mail addresses, 13 to 19 digit numbers, numbers of six
    or more digits, phone-like sequences), then every whitespace run becomes
    one space and the ends are stripped.

    Each pass is a left-to-right scan over the text the pass receives: at a
    position where the pattern matches, the replacement is emitted and the
    scan resumes after the match; elsewhere the character is copied. The
    match at a position is the one Python's backtracking engine prefers
    (greedy repetitions, longest first), written out per pattern. */
module Redactor {
  import opened Text

  datatype Pass = Email | CardNumber | LongNumber | Phone

  /** The replacement text of each pass. */
  function Replacement(p: Pass): (r: string)
    ensures r != [] && r[0] == '['
    ensures forall k :: 0 <= k < |r| ==> !IsDigit(r[k]) && !IsSpace(r[k])
  {
    match p
    case Email => "[REDACTED_EMAIL]"
    case CardNumber => "[REDACTED_NUMBER]"
    case LongNumber => "[REDACTED_NUMBER]"
    case Phone => "[REDACTED_PHONE]"
  }

  /** The character classes the patterns repeat: `[\w\.-]`, `\w`, `\d` and
      `[\d\-\s\(\)]`. */
  datatype CharClass = EmailChar | WordChar | DigitChar | PhoneChar

  predicate InClass(k: CharClass, c: char) {
    match k
    case EmailChar => IsWord(c) || c == '.' || c == '-'
    case WordChar => IsWord(c)
    case DigitChar => IsDigit(c)
    case PhoneChar => IsDigit(c) || c == '-' || IsSpace(c) || c == '(' || c == ')'
  }

  /** Where a greedy repetition of class `k` that starts at `i` stops. */
  function RunEnd(s: string, i: nat, k: CharClass): (e: nat)
    requires i <= |s|
    ensures i <= e <= |s|
    ensures forall j :: i <= j < e ==> InClass(k, s[j])
    ensures e < |s| ==> !InClass(k, s[e])
    decreases |s| - i
  {
    if i == |s| || !InClass(k, s[i]) then i else RunEnd(s, i + 1, k)
  }

  /** The positions a pattern backtracks to: a '.' followed by a word
      character (the `\.\w` of the e-mail pattern), or a digit. */
  datatype Target = DotBeforeWord | Digit

  predicate Hit(s: string, k: nat, t: Target)
    requires k < |s|
  {
    match t
    case DotBeforeWord => s[k] == '.' && k + 1 < |s| && IsWord(s[k + 1])
    case Digit => IsDigit(s[k])
  }

  /** The last position in `[lo, hi)` that hits `t`: the first one a greedy
      repetition finds when it gives characters back one at a time. */
  function LastHit(s: string, lo: nat, hi: nat, t: Target): (r: Option<nat>)
    requires hi <= |s|
    ensures r.Some? ==> lo <= r.value < hi && Hit(s, r.value, t)
    ensures r.Some? ==> forall k :: r.value < k < hi ==> !Hit(s, k, t)
    ensures r.None? ==> forall k :: lo <= k < hi ==> !Hit(s, k, t)
    decreases hi
  {
    if hi <= lo then None
    else if Hit(s, hi - 1, t) then Some(hi - 1)
    else LastHit(s, lo, hi - 1, t)
  }

  /** `\b` before position `i` when `s[i]` is a word character. */
  predicate BoundaryBefore(s: string, i: nat)
    requires i <= |s|
  {
    i == 0 || !IsWord(s[i - 1])
  }

  /** `\b` at position `e` right after a word character. */
  predicate BoundaryAfter(s: string, e: nat)
    requires e <= |s|
  {
    e == |s| || !IsWord(s[e])
  }

  /** `[\w\.-]+@[\w\.-]+\.\w+` at `i`: the local part runs to an '@'; the
      domain part gives back characters until a '.' followed by a word
      character is found, and the word run after that dot ends the match. */
  function EmailMatch(s: string, i: nat): (r: Option<nat>)
    requires i < |s|
    ensures r.Some? ==> i < r.value <= |s|
    ensures r.Some? ==> exists j :: i < j < r.value && s[j] == '@'
  {
    var j := RunEnd(s, i, EmailChar);
    if j == i || j == |s| || s[j] != '@' then None
    else
      var e := RunEnd(s, j + 1, EmailChar);
      match LastHit(s, j + 2, e, DotBeforeWord)
      case None => None
      case Some(p) => Some(RunEnd(s, p + 1, WordChar))
  }

  /** `\b\d{lo,hi}\b` at `i` (no upper bound when `hi` is `None`): the digit
      run that starts at `i` must start and end on a word boundary, and its
      length must be in range, since giving digits back never reaches a
      boundary inside the run. */
  function NumberMatch(s: string, i: nat, lo: nat, hi: Option<nat>): (r: Option<nat>)
    requires i < |s| && lo >= 1
    ensures r.Some? ==> i < r.value <= |s| && IsDigit(s[i])
    ensures r.Some? ==> r.value == RunEnd(s, i, DigitChar)
    ensures r.Some? <==>
      IsDigit(s[i]) && BoundaryBefore(s, i) && BoundaryAfter(s, RunEnd(s, i, DigitChar))
      && lo <= RunEnd(s, i, DigitChar) - i && (hi.None? || RunEnd(s, i, DigitChar) - i <= hi.value)
  {
    var e := RunEnd(s, i, DigitChar);
    if BoundaryBefore(s, i) && BoundaryAfter(s, e) && e - i >= lo && (hi.None? || e - i <= hi.value)
    then Some(e)
    else None
  }

  /** `(\+?\d[\d\-\s\(\)]{6,}\d)` at `i`: an optional '+', a digit, then the
      longest stretch of phone characters that ends in a digit and has at
      least six characters between the two digits. */
  function PhoneMatch(s: string, i: nat): (r: Option<nat>)
    requires i < |s|
    ensures r.Some? ==> i < r.value <= |s|
    ensures r.Some? ==> IsDigit(s[i]) || (s[i] == '+' && i + 1 < |s| && IsDigit(s[i + 1]))
  {
    var d := if s[i] == '+' then i + 1 else i;
    if d >= |s| || !IsDigit(s[d]) then None
    else
      var e := RunEnd(s, d + 1, PhoneChar);
      match LastHit(s, d + 7, e, Digit)
      case None => None
      case Some(k) => Some(k + 1)
  }

  /** The end of the match of pass `p` at `i`, if the pattern matches there. */
  function MatchEnd(p: Pass, s: string, i: nat): (r: Option<nat>)
    requires i < |s|
    ensures r.Some? ==> i < r.value <= |s|
  {
    match p
    case Email => EmailMatch(s, i)
    case CardNumber => NumberMatch(s, i, 13, Some(19))
    case LongNumber => NumberMatch(s, i, 6, None)
    case Phone => PhoneMatch(s, i)
  }

  /** `re.sub` of pass `p` over `s`, from position `i` on. */
  function SubFrom(p: Pass, s: string, i: nat): string
    requires i <= |s|
    decreases |s| - i
  {
    if i == |s| then []
    else
      match MatchEnd(p, s, i)
      case Some(e) => Replacement(p) + SubFrom(p, s, e)
      case None => [s[i]] + SubFrom(p, s, i + 1)
  }

  function Sub(p: Pass, s: string): string {
    SubFrom(p, s, 0)
  }

  /** `re.sub(r'\s+', ' ', s)`: every whitespace run becomes one space. */
  function Collapse(s: string): (r: string)
    ensures |r| == 0 <==> |s| == 0
    ensures r != [] ==> (IsSpace(r[0]) <==> IsSpace(s[0]))
    ensures SingleSpaced(r)
    ensures forall k :: 0 <= k < |r| && IsSpace(r[k]) ==> r[k] == ' '
    ensures LeadingDigits(r) == LeadingDigits(s)
    decreases |s|
  {
    if s == [] then []
    else if IsSpace(s[0]) then
      var rest := TrimLeft(s);
      assert rest != s;
      [' '] + Collapse(rest)
    else [s[0]] + Collapse(s[1..])
  }

  /** No two whitespace characters stand next to each other in `t`. */
  predicate SingleSpaced(t: string) {
    forall k :: 0 <= k < |t| - 1 ==> !(IsSpace(t[k]) && IsSpace(t[k + 1]))
  }

  lemma StripKeepsSingleSpaces(c: string)
    requires SingleSpaced(c)
    ensures SingleSpaced(Strip(c))
  {
    StripIsSlice(c);
    var r := Strip(c);
    var i := |c| - |TrimLeft(c)|;
    assert forall k :: 0 <= k < |r| ==> r[k] == c[i + k];
  }

  /** `anonymize_text`: the empty (falsy) text comes back as it is. The
      result has no whitespace at either end and never two whitespace
      characters in a row. */
  function Anonymize(text: string): (r: string)
    ensures text == [] ==> r == text
    ensures r != [] ==> !IsSpace(r[0]) && !IsSpace(r[|r| - 1])
    ensures SingleSpaced(r)
  {
    if text == [] then text else Tidy(Redact(text))
  }

  /** The four substitution passes, in the order the source applies them. */
  function Redact(text: string): string {
    Sub(Phone, Sub(LongNumber, Sub(CardNumber, Sub(Email, text))))
  }

  /** `re.sub(r'\s+', ' ', s).strip()`. */
  function Tidy(s: string): (r: string)
    ensures r != [] ==> !IsSpace(r[0]) && !IsSpace(r[|r| - 1])
    ensures SingleSpaced(r)
  {
    StripKeepsSingleSpaces(Collapse(s));
    Strip(Collapse(s))
  }

  /** A pass that matches nowhere leaves the text as it is. */
  lemma {:induction false} SubWithoutMatch(p: Pass, s: string, i: nat)
    requires i <= |s|
    requires forall j :: i <= j < |s| ==> MatchEnd(p, s, j).None?
    ensures SubFrom(p, s, i) == s[i..]
    decreases |s| - i
  {
    if i < |s| {
      SubWithoutMatch(p, s, i + 1);
      assert s[i..] == [s[i]] + s[i + 1..];
    }
  }

  /** Text with neither an '@' nor a digit is changed by whitespace
      collapsing and stripping alone. */
  lemma PlainTextOnlyCollapses(text: string)
    requires text != []
    requires forall k :: 0 <= k < |text| ==> text[k] != '@' && !IsDigit(text[k])
    ensures Anonymize(text) == Tidy(text)
  {
    SubWithoutMatch(Email, text, 0);
    assert Sub(Email, text) == text;
    SubWithoutMatch(CardNumber, text, 0);
    SubWithoutMatch(LongNumber, text, 0);
    SubWithoutMatch(Phone, text, 0);
  }

  /** The number of digits `t` starts with. */
  function LeadingDigits(t: string): (n: nat)
    ensures n <= |t|
    ensures forall k :: 0 <= k < n ==> IsDigit(t[k])
    ensures n < |t| ==> !IsDigit(t[n])
  {
    if t == [] || !IsDigit(t[0]) then 0 else 1 + LeadingDigits(t[1..])
  }

  /** No run of `n` or more digits anywhere in `t`. */
  predicate DigitRunsBelow(t: string, n: nat) {
    forall j :: 0 <= j < |t| ==> LeadingDigits(t[j..]) < n
  }

  lemma LeadingDigitsOfPrefix(t: string, m: nat)
    requires m <= |t|
    ensures LeadingDigits(t[..m]) <= LeadingDigits(t)
  {
    var a := LeadingDigits(t[..m]);
    assert forall k :: 0 <= k < a ==> t[k] == t[..m][k];
    LeadingDigitsAtLeast(t, a);
  }

  lemma {:induction false} LeadingDigitsAtLeast(t: string, a: nat)
    requires a <= |t| && forall k :: 0 <= k < a ==> IsDigit(t[k])
    ensures LeadingDigits(t) >= a
  {
    if a > 0 {
      LeadingDigitsAtLeast(t[1..], a - 1);
    }
  }

  lemma DigitRunsOfSlice(s: string, n: nat, i: nat, m: nat)
    requires i <= m <= |s| && DigitRunsBelow(s, n)
    ensures DigitRunsBelow(s[i..m], n)
  {
    forall j | 0 <= j < m - i ensures LeadingDigits(s[i..m][j..]) < n {
      assert s[i..m][j..] == s[i + j..][..m - i - j];
      LeadingDigitsOfPrefix(s[i + j..], m - i - j);
    }
  }

  lemma DigitRunsOfSuffix(t: string, n: nat, i: nat)
    requires i <= |t| && DigitRunsBelow(t, n)
    ensures DigitRunsBelow(t[i..], n)
  {
    forall j | 0 <= j < |t[i..]| ensures LeadingDigits(t[i..][j..]) < n {
      assert t[i..][j..] == t[i + j..];
    }
  }

  /** Putting a piece in front of a string without long digit runs keeps
      it so, when the piece has no digit or only a short run joins it. */
  lemma DigitRunsOfCons(a: string, b: string, n: nat)
    requires n > 0 && DigitRunsBelow(b, n)
    requires (forall k :: 0 <= k < |a| ==> !IsDigit(a[k])) || (|a| == 1 && LeadingDigits(a + b) < n)
    ensures DigitRunsBelow(a + b, n)
  {
    forall j | 0 <= j < |a + b| ensures LeadingDigits((a + b)[j..]) < n {
      if j >= |a| {
        assert (a + b)[j..] == b[j - |a|..];
      } else if j == 0 && |a| == 1 && LeadingDigits(a + b) < n {
        assert (a + b)[j..] == a + b;
      } else {
        assert (a + b)[j..][0] == a[j];
      }
    }
  }

  /** Inside the phone pass the copied digits that follow a position are no
      more than the digits of the input there. */
  lemma {:induction false} PhoneLeadingDigits(s: string, i: nat)
    requires i <= |s|
    ensures LeadingDigits(SubFrom(Phone, s, i)) <= RunEnd(s, i, DigitChar) - i
    decreases |s| - i
  {
    if i < |s| {
      match MatchEnd(Phone, s, i)
      case Some(e) =>
        assert SubFrom(Phone, s, i)[0] == '[';
      case None =>
        if IsDigit(s[i]) {
          var rest := SubFrom(Phone, s, i + 1);
          PhoneLeadingDigits(s, i + 1);
          assert SubFrom(Phone, s, i) == [s[i]] + rest;
          assert ([s[i]] + rest)[1..] == rest;
          assert LeadingDigits([s[i]] + rest) == 1 + LeadingDigits(rest);
          assert RunEnd(s, i, DigitChar) == RunEnd(s, i + 1, DigitChar);
        }
    }
  }

  /** The phone pattern matches at the first of eight digits in a row. */
  lemma PhoneMatchesEightDigits(s: string, i: nat)
    requires i < |s| && RunEnd(s, i, DigitChar) >= i + 8
    ensures PhoneMatch(s, i).Some?
  {
    assert forall j :: i <= j < i + 8 ==> InClass(PhoneChar, s[j]);
    var e := RunEnd(s, i + 1, PhoneChar);
    assert e >= i + 8;
    assert Hit(s, i + 7, Digit);
  }

  /** After the phone pass no eight digits stand in a row. */
  lemma {:induction false} PhonePassBreaksDigitRuns(s: string, i: nat)
    requires i <= |s|
    ensures DigitRunsBelow(SubFrom(Phone, s, i), 8)
    decreases |s| - i
  {
    if i < |s| {
      match MatchEnd(Phone, s, i)
      case Some(e) =>
        PhonePassBreaksDigitRuns(s, e);
        DigitRunsOfCons(Replacement(Phone), SubFrom(Phone, s, e), 8);
      case None =>
        PhonePassBreaksDigitRuns(s, i + 1);
        var rest := SubFrom(Phone, s, i + 1);
        if IsDigit(s[i]) {
          PhoneLeadingDigits(s, i + 1);
          if RunEnd(s, i, DigitChar) >= i + 8 {
            PhoneMatchesEightDigits(s, i);
          }
          assert ([s[i]] + rest)[1..] == rest;
        }
        DigitRunsOfCons([s[i]], rest, 8);
    }
  }

  lemma {:induction false} CollapseKeepsDigitRuns(s: string, n: nat)
    requires n > 0 && DigitRunsBelow(s, n)
    ensures DigitRunsBelow(Collapse(s), n)
    decreases |s|
  {
    if s != [] {
      if IsSpace(s[0]) {
        var rest := TrimLeft(s);
        DigitRunsOfSuffix(s, n, |s| - |rest|);
        CollapseKeepsDigitRuns(rest, n);
        DigitRunsOfCons([' '], Collapse(rest), n);
      } else {
        DigitRunsOfSuffix(s, n, 1);
        CollapseKeepsDigitRuns(s[1..], n);
        assert s[0..] == s;
        assert Collapse(s) == [s[0]] + Collapse(s[1..]);
        DigitRunsOfCons([s[0]], Collapse(s[1..]), n);
      }
    }
  }

  lemma StripKeepsDigitRuns(s: string, n: nat)
    requires DigitRunsBelow(s, n)
    ensures DigitRunsBelow(Strip(s), n)
  {
    var l := TrimLeft(s);
    DigitRunsOfSuffix(s, n, |s| - |l|);
    var r := TrimRight(l);
    DigitRunsOfSlice(l, n, 0, |r|);
    assert l[0..|r|] == r;
  }

  /** No run of eight or more digits survives redaction. */
  lemma NoLongDigitRunSurvives(text: string)
    ensures DigitRunsBelow(Anonymize(text), 8)
  {
    if text != [] {
      var s := Redact(text);
      PhonePassBreaksDigitRuns(Sub(LongNumber, Sub(CardNumber, Sub(Email, text))), 0);
      CollapseKeepsDigitRuns(s, 8);
      StripKeepsDigitRuns(Collapse(s), 8);
    }
  }
}

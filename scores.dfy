/** The three score normalisers. Each reads a rating that is either already
    on the 1..5 scale or a percentage (0..100) and brings it to 1..5; they
    differ in which test comes first and in what they return otherwise.
    Scores are exact reals here; Python's binary floats are not modelled. */
module Scores {
  import opened Text
  import opened Rows

  /** Python's `round(x)`: the nearest integer, ties to the even one. */
  function RoundHalfEven(x: real): (n: int)
    ensures -0.5 <= n as real - x <= 0.5
    ensures (n as real - x == 0.5 || x - n as real == 0.5) ==> n % 2 == 0
  {
    var f := x.Floor;
    var d := x - f as real;
    if d < 0.5 then f
    else if d > 0.5 then f + 1
    else if f % 2 == 0 then f
    else f + 1
  }

  /** No integer is closer to `x` than `RoundHalfEven(x)`. */
  lemma RoundIsNearest(x: real, m: int)
    ensures Abs(RoundHalfEven(x) as real - x) <= Abs(m as real - x)
  {
    var n := RoundHalfEven(x);
    if m < n {
      assert m as real <= n as real - 1.0;
      assert m as real - x <= -0.5;
    } else if m > n {
      assert m as real >= n as real + 1.0;
      assert m as real - x >= 0.5;
    }
  }

  function Abs(x: real): (r: real)
    ensures r >= 0.0 && (r == x || r == -x)
  {
    if x < 0.0 then -x else x
  }

  /** Python's `round(x, 2)` on the exact value. */
  function Round2(x: real): (r: real)
    ensures -0.005 <= r - x <= 0.005
  {
    RoundHalfEven(x * 100.0) as real / 100.0
  }

  /** `x` has at most two decimals. */
  predicate TwoDecimals(x: real) {
    (x * 100.0).Floor as real == x * 100.0
  }

  /** Rounding to two decimals never leaves an interval whose ends have two
      decimals. */
  lemma {:induction false} Round2Within(x: real, lo: real, hi: real)
    requires TwoDecimals(lo) && TwoDecimals(hi) && lo <= x <= hi
    ensures lo <= Round2(x) <= hi
  {
    var n := RoundHalfEven(x * 100.0);
    var a := (lo * 100.0).Floor;
    var b := (hi * 100.0).Floor;
    RoundIsNearest(x * 100.0, a);
    RoundIsNearest(x * 100.0, b);
    assert a as real <= n as real <= b as real;
  }

  /** A value with two decimals is its own rounding. */
  lemma Round2Exact(x: real)
    requires TwoDecimals(x)
    ensures Round2(x) == x
  {
    var k := (x * 100.0).Floor;
    assert (k as real).Floor == k;
  }

  /** The percentage-to-scale map `1 + 4 * (v / 100)`. */
  function PercentToScale(v: real): (r: real)
    ensures 0.0 <= v <= 100.0 ==> 1.0 <= r <= 5.0
  {
    1.0 + 4.0 * (v / 100.0)
  }

  /** The `ai_score` of the sync script's `parse_conversation_row` for a
      parsed number: a value on the 1..5 scale is kept, a percentage is
      mapped, anything else is dropped. */
  function SyncScore(v: real): (r: Option<real>)
    ensures r.Some? ==> 1.0 <= r.value <= 5.0
    ensures r.Some? <==> 0.0 <= v <= 100.0
    ensures 1.0 <= v <= 5.0 ==> r.Some? && -0.005 <= r.value - v <= 0.005
    ensures (0.0 <= v < 1.0 || 5.0 < v <= 100.0) ==> r.Some? && -0.005 <= r.value - PercentToScale(v) <= 0.005
  {
    if 1.0 <= v <= 5.0 then
      Round2Within(v, 1.0, 5.0);
      Some(Round2(v))
    else if 0.0 <= v <= 100.0 then
      Round2Within(PercentToScale(v), 1.0, 5.0);
      Some(Round2(PercentToScale(v)))
    else None
  }

  /** The whole score step of the sync script: the raw text (already the
      first non-empty rating column, or empty) is parsed as a float; an
      empty or unparsable text gives no score. */
  function SyncScoreOfText(raw: string): (r: Option<real>)
    ensures r.Some? ==> 1.0 <= r.value <= 5.0
    ensures raw == "" || ParseDecimal(raw).None? ==> r.None?
    ensures raw != "" && ParseDecimal(raw).Some? ==> r == SyncScore(ParseDecimal(raw).value)
  {
    if raw == "" then None
    else
      match ParseDecimal(raw)
      case None => None
      case Some(v) => SyncScore(v)
  }

  /** `"ai" if ai_score else "none"`: a present score is at least 1, so it is
      never the falsy `0.0`, and the source is "ai" exactly when a score is
      present. */
  function RatingSource(score: Option<real>): (r: string)
    requires score.Some? ==> 1.0 <= score.value
    ensures r == "ai" <==> score.Some?
    ensures r == "ai" || r == "none"
  {
    if score.Some? && score.value != 0.0 then "ai" else "none"
  }

  /** A 92 % rating is 4.68 on the scale; 4.2 stays 4.2. */
  lemma SyncScoreExamples()
    ensures SyncScore(92.0) == Some(4.68)
    ensures SyncScore(4.2) == Some(4.2)
  {
    Round2Exact(4.68);
    Round2Exact(4.2);
  }

  /** The revision's `parse_conversation_row` tests the percentage range
      first. */
  function RevisionScore(v: real): (r: Option<real>)
    ensures r.Some? ==> 1.0 <= r.value <= 5.0
    ensures r.Some? <==> 0.0 <= v <= 100.0
  {
    if 0.0 <= v <= 100.0 then
      Round2Within(PercentToScale(v), 1.0, 5.0);
      Some(Round2(PercentToScale(v)))
    else if 1.0 <= v <= 5.0 then Some(Round2(v))
    else None
  }

  /** Every value of the revision is mapped as a percentage: its 1..5 branch
      is unreachable, so 4.2 becomes 1.17. */
  lemma RevisionTreatsAllAsPercent(v: real)
    ensures RevisionScore(v) == if 0.0 <= v <= 100.0 then Some(Round2(PercentToScale(v))) else None
    ensures RevisionScore(4.2) == Some(1.17)
  {
    assert PercentToScale(4.2) * 100.0 == 116.8;
    assert (116.8).Floor == 116;
  }

  /** The revision's score step: as in the sync script, with
      `RevisionScore` for a parsed number. */
  function RevisionScoreOfText(raw: string): (r: Option<real>)
    ensures r.Some? ==> 1.0 <= r.value <= 5.0
    ensures raw == "" || ParseDecimal(raw).None? ==> r.None?
    ensures raw != "" && ParseDecimal(raw).Some? ==> r == RevisionScore(ParseDecimal(raw).value)
  {
    if raw == "" then None
    else
      match ParseDecimal(raw)
      case None => None
      case Some(v) => RevisionScore(v)
  }

  /** `percent_to_1_5`: an integer grade 1..5 for a percentage. */
  function PercentToGrade(v: real): (r: Option<int>)
    ensures r.Some? <==> 0.0 <= v <= 100.0
    ensures r.Some? ==> 1 <= r.value <= 5
    ensures r.Some? ==> -0.5 <= r.value as real - PercentToScale(v) <= 0.5
  {
    if 0.0 <= v <= 100.0 then
      var g := RoundHalfEven(PercentToScale(v));
      RoundIsNearest(PercentToScale(v), 1);
      RoundIsNearest(PercentToScale(v), 5);
      Some(g)
    else None
  }

  /** `final_score` of `map_row_to_canonical`: the empty cell when no score
      column had a value, the raw text when it is no number, a rounded
      float on the 1..5 scale or outside 0..100, and an integer grade for
      the other percentages. */
  function FinalScore(score: Option<string>): (c: Cell)
    ensures score.None? || score == Some("") ==> c == Str("")
    ensures score.Some? && score.value != "" && ParseDecimal(score.value).None? ==> c == Str(score.value)
    ensures c.Int? ==> 1 <= c.n <= 5
    ensures c.Real? && score.Some? ==>
      ParseDecimal(score.value).Some? && -0.005 <= c.x - ParseDecimal(score.value).value <= 0.005
    ensures score.Some? && ParseDecimal(score.value).Some? ==>
      var f := ParseDecimal(score.value).value;
      (1.0 <= f <= 5.0 || !(0.0 <= f <= 100.0)) ==> c == Real(Round2(f))
  {
    if score.None? || score.value == "" then Str("")
    else
      match ParseDecimal(score.value)
      case None => Str(score.value)
      case Some(f) =>
        if 1.0 <= f <= 5.0 then Real(Round2(f))
        else if 0.0 <= f <= 100.0 then
          match PercentToGrade(f)
          case Some(g) => Int(g)
          case None => Real(Round2(f))
        else Real(Round2(f))
  }

  /** The `round(f, 2)` fallback after `percent_to_1_5` is dead: on 0..100
      that function always gives a grade. So a number in 0..100 outside
      1..5 always becomes an integer grade. */
  lemma FinalScorePercentIsGrade(score: string)
    requires ParseDecimal(score).Some?
    requires var f := ParseDecimal(score).value; 0.0 <= f <= 100.0 && !(1.0 <= f <= 5.0)
    ensures score != ""
    ensures FinalScore(Some(score)) == Int(PercentToGrade(ParseDecimal(score).value).value)
  {
  }

  /** The sheet's score and the sync script's agree on every rating in
      0..100: a value on the 1..5 scale is the same rounded number in both,
      and a percentage's integer grade is within half a point (plus the
      rounding to two decimals) of the synced score. */
  lemma FinalScoreAgreesWithSync(score: string)
    requires ParseDecimal(score).Some? && 0.0 <= ParseDecimal(score).value <= 100.0
    ensures SyncScoreOfText(score).Some?
    ensures FinalScore(Some(score)).Real? || FinalScore(Some(score)).Int?
    ensures FinalScore(Some(score)).Real? ==> FinalScore(Some(score)).x == SyncScoreOfText(score).value
    ensures FinalScore(Some(score)).Int? ==>
      -0.505 <= FinalScore(Some(score)).n as real - SyncScoreOfText(score).value <= 0.505
  {
    var f := ParseDecimal(score).value;
    if !(1.0 <= f <= 5.0) {
      FinalScorePercentIsGrade(score);
    }
  }
}

// The contrast checker: the WCAG 2.x contrast ratio of two relative
// luminances, and the three pass/fail badges shown for it.

module Contrast {
  import opened Wrappers
  import opened HexCodec

  function Max(a: real, b: real): real { if a >= b then a else b }
  function Min(a: real, b: real): real { if a <= b then a else b }

  /**
   * `(lighter + 0.05) / (darker + 0.05)` over two relative luminances. At least
   * 1, and 1 exactly for equal luminances.
   */
  function ContrastRatio(l1: real, l2: real): (ratio: real)
    requires l1 >= 0.0 && l2 >= 0.0
    ensures ratio >= 1.0
    ensures ratio == 1.0 <==> l1 == l2
  {
    var lighter, darker := Max(l1, l2), Min(l1, l2);
    assert darker + 0.05 > 0.0;
    (lighter + 0.05) / (darker + 0.05)
  }

  /** The ratio does not depend on which colour is the foreground. */
  lemma ContrastRatioSymmetric(l1: real, l2: real)
    requires l1 >= 0.0 && l2 >= 0.0
    ensures ContrastRatio(l1, l2) == ContrastRatio(l2, l1)
  {
  }

  /** For luminances in 0..1 the ratio is at most 21, reached by black on white. */
  lemma ContrastRatioAtMost21(l1: real, l2: real)
    requires 0.0 <= l1 <= 1.0 && 0.0 <= l2 <= 1.0
    ensures ContrastRatio(l1, l2) <= 21.0
    ensures ContrastRatio(l1, l2) == 21.0 <==> (l1 == 0.0 && l2 == 1.0) || (l1 == 1.0 && l2 == 0.0)
  {
    var lighter, darker := Max(l1, l2), Min(l1, l2);
    var r := ContrastRatio(l1, l2);
    var e, p := r - 21.0, darker + 0.05;
    assert r * p == lighter + 0.05;
    assert e * p == lighter - 1.0 - 21.0 * darker;
    NonPositiveFactor(e, p);
  }

  lemma NonPositiveFactor(e: real, p: real)
    requires p > 0.0 && e * p <= 0.0
    ensures e <= 0.0
  {
  }

  /**
   * `calculateContrastRatio` on two hex colours. Both come from colour inputs
   * and are always valid; `luminance` stands for `getRelativeLuminance`,
   * whose values lie in 0..1.
   */
  function CalculateContrastRatio(color1: string, color2: string, luminance: Rgb -> real): (ratio: real)
    requires HexToRgb(color1).Some? && HexToRgb(color2).Some?
    requires luminance(HexToRgb(color1).value) >= 0.0 && luminance(HexToRgb(color2).value) >= 0.0
    ensures ratio >= 1.0
    ensures HexToRgb(color1) == HexToRgb(color2) ==> ratio == 1.0
  {
    var rgb1, rgb2 := HexToRgb(color1).value, HexToRgb(color2).value;
    ContrastRatio(luminance(rgb1), luminance(rgb2))
  }

  // ---------------------------------------------------------------------------
  // Badges

  datatype Badge = Badge(text: string, threshold: real)

  /**
   * WCAG 2.x: Success Criterion 1.4.3 asks 4.5:1 for normal text (AA) and 3:1
   * for large text; Success Criterion 1.4.6 asks 7:1 (AAA).
   */
  const Badges: seq<Badge> := [Badge("AA Normal", 4.5), Badge("AA Large", 3.0), Badge("AAA Normal", 7.0)]

  datatype BadgeState = BadgeState(text: string, passes: bool)

  /** The badges in order, each passing exactly when the ratio reaches its threshold. */
  function BadgeResults(ratio: real): (states: seq<BadgeState>)
    ensures |states| == |Badges|
    ensures forall i :: 0 <= i < |Badges| ==> states[i].text == Badges[i].text
  {
    seq(|Badges|, i requires 0 <= i < |Badges| => BadgeState(Badges[i].text, ratio >= Badges[i].threshold))
  }

  /** The badges pass in nested order: AAA implies AA Normal, which implies AA Large. */
  lemma BadgesNested(ratio: real)
    ensures var states := BadgeResults(ratio);
      && (states[0].passes <==> ratio >= 4.5)
      && (states[1].passes <==> ratio >= 3.0)
      && (states[2].passes <==> ratio >= 7.0)
      && (states[2].passes ==> states[0].passes)
      && (states[0].passes ==> states[1].passes)
  {
  }

  /** A higher ratio never fails a badge a lower one passes. */
  lemma BadgesMonotone(low: real, high: real, i: nat)
    requires low <= high && i < |Badges|
    ensures BadgeResults(low)[i].passes ==> BadgeResults(high)[i].passes
  {
  }

  /** Equal luminances fail all three badges; black on white passes all three. */
  lemma BadgeExtremes(l: real)
    requires l >= 0.0
    ensures forall i :: 0 <= i < |Badges| ==> !BadgeResults(ContrastRatio(l, l))[i].passes
    ensures forall i :: 0 <= i < |Badges| ==> BadgeResults(ContrastRatio(0.0, 1.0))[i].passes
  {
    assert ContrastRatio(0.0, 1.0) == 21.0;
  }
}

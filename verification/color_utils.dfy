/** The heat-map classification of a cell's probability: a CSS class from
    five half-open buckets, and a colour band (red, neutral or green). The
    rgba arithmetic inside each band is not modelled, only which band applies. */
module ColorUtils {
  import opened Options

  /** `Math.max(0, Math.min(1, p))`. */
  function Clamp01(p: real): (q: real)
    ensures 0.0 <= q <= 1.0
    ensures 0.0 <= p <= 1.0 ==> q == p
    ensures p < 0.0 ==> q == 0.0
    ensures p > 1.0 ==> q == 1.0
  {
    if 1.0 < p then 1.0 else if p < 0.0 then 0.0 else p
  }

  datatype ProbClass = Unknown | VeryLow | Low | Medium | High | VeryHigh

  /** The CSS class names, in order of the buckets. */
  function ClassName(c: ProbClass): string {
    match c
    case Unknown => "prob-unknown"
    case VeryLow => "prob-very-low"
    case Low => "prob-low"
    case Medium => "prob-medium"
    case High => "prob-high"
    case VeryHigh => "prob-very-high"
  }

  /** A bucket's place from lowest to highest; `Unknown` has none. */
  function Rank(c: ProbClass): nat
    requires c != Unknown
  {
    match c
    case VeryLow => 0
    case Low => 1
    case Medium => 2
    case High => 3
    case VeryHigh => 4
  }

  /** `probabilityToClass`. */
  function ProbabilityToClass(probability: Option<real>): (c: ProbClass)
    ensures c == Unknown <==> probability.None?
    ensures probability.Some? ==>
      var p := Clamp01(probability.value);
      && (c == VeryLow <==> p < 0.2)
      && (c == Low <==> 0.2 <= p < 0.4)
      && (c == Medium <==> 0.4 <= p < 0.6)
      && (c == High <==> 0.6 <= p < 0.8)
      && (c == VeryHigh <==> 0.8 <= p)
  {
    match probability
    case None => Unknown
    case Some(raw) =>
      var p := Clamp01(raw);
      if p < 0.2 then VeryLow
      else if p < 0.4 then Low
      else if p < 0.6 then Medium
      else if p < 0.8 then High
      else VeryHigh
  }

  /** A larger probability never lands in a lower bucket. */
  lemma ClassMonotone(p: real, q: real)
    requires p <= q
    ensures Rank(ProbabilityToClass(Some(p))) <= Rank(ProbabilityToClass(Some(q)))
  {
    assert Clamp01(p) <= Clamp01(q);
  }

  /** Out-of-range values classify as the nearest end of [0, 1]. */
  lemma ClassOfOutOfRange(p: real)
    ensures p < 0.0 ==> ProbabilityToClass(Some(p)) == VeryLow
    ensures p > 1.0 ==> ProbabilityToClass(Some(p)) == VeryHigh
  {
  }

  /** Five distinct classes, each named differently. */
  lemma ClassNamesDistinct(a: ProbClass, b: ProbClass)
    requires a != b
    ensures ClassName(a) != ClassName(b)
  {
    if a.Unknown? || b.Unknown? {
      assert ClassName(a)[5] != ClassName(b)[5] || |ClassName(a)| != |ClassName(b)|;
    } else if (a.Low? && b.High?) || (a.High? && b.Low?) {
      assert ClassName(a)[5] != ClassName(b)[5];
    }
  }

  datatype ColorBand = Transparent | Red | Neutral | Green

  /** Which branch of `probabilityToColor` produces the colour. */
  function ProbabilityToBand(probability: Option<real>): (b: ColorBand)
    ensures b == Transparent <==> probability.None?
    ensures probability.Some? ==>
      var p := Clamp01(probability.value);
      && (b == Red <==> p < 0.33)
      && (b == Neutral <==> 0.33 <= p < 0.66)
      && (b == Green <==> 0.66 <= p)
  {
    match probability
    case None => Transparent
    case Some(raw) =>
      var p := Clamp01(raw);
      if p < 0.33 then Red else if p < 0.66 then Neutral else Green
  }

  /** The two scales agree at their ends: the lowest class is always red and
      the highest always green, while the middle classes straddle a band edge. */
  lemma BandAgreesWithClass(p: real)
    ensures ProbabilityToClass(Some(p)) == VeryLow ==> ProbabilityToBand(Some(p)) == Red
    ensures ProbabilityToClass(Some(p)) == Medium ==> ProbabilityToBand(Some(p)) == Neutral
    ensures ProbabilityToClass(Some(p)) == VeryHigh ==> ProbabilityToBand(Some(p)) == Green
    ensures ProbabilityToClass(Some(0.3)) == Low && ProbabilityToBand(Some(0.3)) == Red
    ensures ProbabilityToClass(Some(0.35)) == Low && ProbabilityToBand(Some(0.35)) == Neutral
  {
  }
}

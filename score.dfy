/** The composite robot score of src/score.py: three component scores in
    [0, 100], their weighted average, a terrain-difficulty multiplier and a
    label.

    `math.exp` is a parameter of the stability score; `round(x, n)` is
    half-up rounding to `n` decimal places on exact reals. */
module Score {
  import opened Wrappers
  import opened Strings
  import Numbers

  const WeightStability: real := 0.40
  const WeightUprightness: real := 0.35
  const WeightGrounding: real := 0.25

  /** Displacement beyond which the stability score is essentially zero. */
  const MaxDisplacement: real := 10.0
  /** Height deviation at which the grounding score reaches zero. */
  const MaxHeightDeviation: real := 5.0
  /** The spawn height on flat terrain. */
  const IdealHeight: real := 1.0

  const ErrNotDict: string := "metrics must be a non-empty dict"

  /** `max(lo, min(hi, value))`. */
  function Clamp(value: real, lo: real, hi: real): (r: real)
    ensures lo <= hi ==> lo <= r <= hi
    ensures value < lo ==> r == lo
    ensures lo <= hi && value > hi ==> r == hi
    ensures lo <= value <= hi ==> r == value
  {
    if lo > (if hi < value then hi else value) then lo
    else if hi < value then hi
    else value
  }

  lemma ClampMonotone(x: real, y: real, lo: real, hi: real)
    requires lo <= hi && x <= y
    ensures Clamp(x, lo, hi) <= Clamp(y, lo, hi)
  {
  }

  /** `round(x, digits)`, rounding halves up. */
  function Round(x: real, digits: nat): real
  {
    Scaled(x, digits) as real / Numbers.Pow10(digits)
  }

  /** `x` in units of the last kept decimal place, rounded half up. */
  function Scaled(x: real, digits: nat): int
  {
    (x * Numbers.Pow10(digits) + 0.5).Floor
  }

  lemma FloorMonotone(u: real, v: real)
    requires u <= v
    ensures u.Floor <= v.Floor
  {
  }

  lemma DivMonotone(p: real, q: real, s: real)
    requires p <= q && s > 0.0
    ensures p / s <= q / s
  {
    assert q / s - p / s == (q - p) / s;
  }

  lemma MulMonotone(w: real, k1: real, k2: real)
    requires w >= 0.0 && k1 <= k2
    ensures w * k1 <= w * k2
  {
    assert w * k2 - w * k1 == w * (k2 - k1);
  }

  /** Rounding keeps order. */
  lemma RoundMonotone(x: real, y: real, digits: nat)
    requires x <= y
    ensures Round(x, digits) <= Round(y, digits)
  {
    var scale := Numbers.Pow10(digits);
    MulMonotone(scale, x, y);
    assert x * scale == scale * x && y * scale == scale * y;
    FloorMonotone(x * scale + 0.5, y * scale + 0.5);
    assert Scaled(x, digits) <= Scaled(y, digits);
    DivMonotone(Scaled(x, digits) as real, Scaled(y, digits) as real, scale);
  }

  /** Ten to a power, as an integer. */
  function IntPow10(k: nat): (r: nat)
    ensures r as real == Numbers.Pow10(k)
  {
    if k == 0 then 1 else 10 * IntPow10(k - 1)
  }

  /** A rounded value is its own rounding: `round(round(x, d), d) == round(x, d)`. */
  lemma RoundIdempotent(x: real, digits: nat)
    ensures Round(Round(x, digits), digits) == Round(x, digits)
  {
    var scale := Numbers.Pow10(digits);
    var n := Scaled(x, digits);
    var once := Round(x, digits);
    assert once * scale == n as real;
    assert Scaled(once, digits) == n;
  }

  /** A whole number is its own rounding. */
  lemma RoundWhole(n: int, digits: nat)
    ensures Round(n as real, digits) == n as real
  {
    var scale := Numbers.Pow10(digits);
    var k := n * IntPow10(digits);
    assert n as real * scale == k as real;
    assert Scaled(n as real, digits) == k;
    assert (k as real) / scale == n as real;
  }

  /** Rounding a value in [0, 100] stays in [0, 100]. */
  lemma RoundInPercent(x: real, digits: nat)
    requires 0.0 <= x <= 100.0
    ensures 0.0 <= Round(x, digits) <= 100.0
  {
    RoundMonotone(0.0, x, digits);
    RoundMonotone(x, 100.0, digits);
    RoundWhole(0, digits);
    RoundWhole(100, digits);
  }

  /** src/score.py `score_stability`: exponential fall-off in the displacement,
      with a negative displacement read as zero; `exp` is `math.exp`. */
  function ScoreStability(displacement: real, exp: real -> real): (r: real)
    ensures 0.0 <= r <= 100.0
  {
    var d := if displacement < 0.0 then 0.0 else displacement;
    var raw := 100.0 * exp(-3.0 * d / MaxDisplacement);
    RoundInPercent(Clamp(raw, 0.0, 100.0), 2);
    Round(Clamp(raw, 0.0, 100.0), 2)
  }

  /** No displacement, or a negative one, scores 100. */
  lemma StabilityAtRest(displacement: real, exp: real -> real)
    requires displacement <= 0.0 && exp(0.0) == 1.0
    ensures ScoreStability(displacement, exp) == 100.0
  {
    assert -3.0 * 0.0 / MaxDisplacement == 0.0;
    RoundWhole(100, 2);
  }

  /** With a non-increasing `exp`, a larger displacement never scores higher. */
  lemma StabilityMonotone(d1: real, d2: real, exp: real -> real)
    requires d1 <= d2
    requires forall x, y :: x <= y ==> exp(x) <= exp(y)
    ensures ScoreStability(d2, exp) <= ScoreStability(d1, exp)
  {
    var a := if d1 < 0.0 then 0.0 else d1;
    var b := if d2 < 0.0 then 0.0 else d2;
    assert -3.0 * b / MaxDisplacement <= -3.0 * a / MaxDisplacement;
    var ra := 100.0 * exp(-3.0 * a / MaxDisplacement);
    var rb := 100.0 * exp(-3.0 * b / MaxDisplacement);
    assert rb <= ra;
    ClampMonotone(rb, ra, 0.0, 100.0);
    RoundMonotone(Clamp(rb, 0.0, 100.0), Clamp(ra, 0.0, 100.0), 2);
  }

  /** src/score.py `score_uprightness`: the tilt cosine clamped to [0, 1], as a
      percentage. */
  function ScoreUprightness(tiltCos: real): (r: real)
    ensures 0.0 <= r <= 100.0
    ensures tiltCos >= 1.0 ==> r == 100.0
    ensures tiltCos <= 0.0 ==> r == 0.0
    ensures tiltCos == 0.5 ==> r == 50.0
    ensures 0.0 <= tiltCos <= 1.0 ==> r == Round(tiltCos * 100.0, 2)
  {
    var normalised := Clamp(tiltCos, 0.0, 1.0);
    RoundInPercent(normalised * 100.0, 2);
    RoundWhole(100, 2);
    RoundWhole(0, 2);
    RoundWhole(50, 2);
    Round(normalised * 100.0, 2)
  }

  /** A more upright robot never scores lower. */
  lemma UprightnessMonotone(t1: real, t2: real)
    requires t1 <= t2
    ensures ScoreUprightness(t1) <= ScoreUprightness(t2)
  {
    ClampMonotone(t1, t2, 0.0, 1.0);
    RoundMonotone(Clamp(t1, 0.0, 1.0) * 100.0, Clamp(t2, 0.0, 1.0) * 100.0, 2);
  }

  function Abs(x: real): real {
    if x < 0.0 then -x else x
  }

  /** src/score.py `score_grounding`: 100 at the spawn height, falling
      linearly to 0 at a deviation of `MaxHeightDeviation`, and 0 beyond. */
  function ScoreGrounding(finalZ: real, spawnHeight: real): (r: real)
    ensures 0.0 <= r <= 100.0
    ensures finalZ == spawnHeight ==> r == 100.0
    ensures Abs(finalZ - spawnHeight) >= MaxHeightDeviation ==> r == 0.0
    ensures Abs(finalZ - spawnHeight) <= MaxHeightDeviation ==>
              r == Round(100.0 * (1.0 - Abs(finalZ - spawnHeight) / MaxHeightDeviation), 2)
  {
    var deviation := Abs(finalZ - spawnHeight);
    if deviation > MaxHeightDeviation then 0.0
    else
      var raw := 100.0 * (1.0 - deviation / MaxHeightDeviation);
      RoundInPercent(raw, 2);
      RoundWhole(100, 2);
      RoundWhole(0, 2);
      Round(Clamp(raw, 0.0, 100.0), 2)
  }

  /** Ending closer to the spawn height never scores lower. */
  lemma GroundingMonotone(z1: real, z2: real, spawnHeight: real)
    requires Abs(z2 - spawnHeight) <= Abs(z1 - spawnHeight)
    ensures ScoreGrounding(z1, spawnHeight) <= ScoreGrounding(z2, spawnHeight)
  {
    var d1 := Abs(z1 - spawnHeight);
    var d2 := Abs(z2 - spawnHeight);
    if d1 <= MaxHeightDeviation {
      RoundMonotone(100.0 * (1.0 - d1 / MaxHeightDeviation), 100.0 * (1.0 - d2 / MaxHeightDeviation), 2);
    }
  }

  /** `TERRAIN_MULTIPLIERS.get(mode)`, looked up after lower-casing. */
  function TerrainTable(mode: string): Option<real> {
    if mode == "flat" then Some(1.0)
    else if mode == "slope" then Some(1.15)
    else if mode == "stairs" then Some(1.25)
    else if mode == "uneven" then Some(1.30)
    else None
  }

  /** src/score.py `terrain_multiplier`: `None` and `""` read as "flat", the
      lookup ignores case and unknown modes give 1.0. */
  function TerrainMultiplier(mode: Option<string>): (r: real)
    ensures r >= 1.0
    ensures mode.None? || mode == Some("") ==> r == 1.0
    ensures mode.Some? && mode.value != "" && TerrainTable(Lower(mode.value)).None? ==> r == 1.0
  {
    var m := if mode.None? || mode.value == "" then "flat" else mode.value;
    TerrainTable(Lower(m)).GetOr(1.0)
  }

  /** The lookup ignores case. */
  lemma TerrainMultiplierIgnoresCase(s: string)
    ensures TerrainMultiplier(Some(Lower(s))) == TerrainMultiplier(Some(s))
  {
    LowerIdempotent(s);
    if s == [] {
      assert Lower(s) == [];
    } else {
      assert Lower(s) != [];
    }
  }

  /** The four table entries. */
  lemma TerrainMultiplierTable()
    ensures TerrainMultiplier(Some("flat")) == 1.0
    ensures TerrainMultiplier(Some("slope")) == 1.15
    ensures TerrainMultiplier(Some("stairs")) == 1.25
    ensures TerrainMultiplier(Some("uneven")) == 1.30
  {
    assert Lower("flat") == "flat";
    assert Lower("slope") == "slope";
    assert Lower("stairs") == "stairs";
    assert Lower("uneven") == "uneven";
  }

  /** The final position in the metrics: a dict with an optional "z", or some
      other value (read as z = 0). */
  datatype Position = PositionDict(z: Option<real>) | NotADict

  /** The keys of the metrics dict that `compute_score` reads, each optional;
      `terrainMode` is `Some(None)` when the key is present with value `None`.
      `otherKeys` counts the keys it does not read. */
  datatype Metrics = Metrics(
    displacement: Option<real>,
    tiltCos: Option<real>,
    finalPosition: Option<Position>,
    terrainMode: Option<Option<string>>,
    otherKeys: nat)
  {
    predicate IsEmpty() {
      displacement.None? && tiltCos.None? && finalPosition.None? && terrainMode.None? && otherKeys == 0
    }
  }

  /** The `metrics` argument: `None`, a value that is not a dict, or a dict. */
  datatype MetricsArg = NoMetrics | NotDict | Dict(m: Metrics)

  /** The dict `compute_score` returns. */
  datatype ScoreReport = ScoreReport(
    stability: real,
    uprightness: real,
    grounding: real,
    weighted: real,
    multiplier: real,
    terrainMode: Option<string>,
    finalScore: real)

  /** The terrain mode `compute_score` uses: the argument when it is a
      non-empty string, else the metrics' entry, else "flat". */
  function ChosenTerrain(m: Metrics, terrainMode: Option<string>): Option<string> {
    if terrainMode.Some? && terrainMode.value != "" then terrainMode
    else m.terrainMode.GetOr(Some("flat"))
  }

  /** The weighted average of the three components. */
  function WeightedScore(m: Metrics, exp: real -> real): (r: real)
    ensures 0.0 <= r <= 100.0
  {
    var z := match m.finalPosition
      case Some(PositionDict(z)) => z.GetOr(0.0)
      case _ => 0.0;
    WeightStability * ScoreStability(m.displacement.GetOr(0.0), exp)
    + WeightUprightness * ScoreUprightness(m.tiltCos.GetOr(0.0))
    + WeightGrounding * ScoreGrounding(z, IdealHeight)
  }

  /** The final score: the weighted average times the terrain multiplier,
      clamped to [0, 100] and rounded to one decimal. */
  function FinalScore(weighted: real, multiplier: real): (r: real)
    requires 0.0 <= weighted
    ensures 0.0 <= r <= 100.0
  {
    var final := Clamp(weighted * multiplier, 0.0, 100.0);
    RoundInPercent(final, 1);
    Round(final, 1)
  }

  /** A larger multiplier never lowers the final score. */
  lemma FinalScoreMonotone(w: real, k1: real, k2: real)
    requires 0.0 <= w && k1 <= k2
    ensures FinalScore(w, k1) <= FinalScore(w, k2)
  {
    var a := w * k1;
    var b := w * k2;
    MulMonotone(w, k1, k2);
    assert a <= b;
    var c1 := Clamp(a, 0.0, 100.0);
    var c2 := Clamp(b, 0.0, 100.0);
    ClampMonotone(a, b, 0.0, 100.0);
    RoundMonotone(c1, c2, 1);
    assert FinalScore(w, k1) == Round(c1, 1);
    assert FinalScore(w, k2) == Round(c2, 1);
  }

  /** The report for a non-empty metrics dict and the chosen terrain. */
  function Report(m: Metrics, tMode: Option<string>, exp: real -> real): (r: ScoreReport)
    ensures 0.0 <= r.finalScore <= 100.0
    ensures r.terrainMode == tMode && r.multiplier == TerrainMultiplier(tMode)
    ensures r.finalScore == FinalScore(WeightedScore(m, exp), TerrainMultiplier(tMode))
  {
    var z := match m.finalPosition
      case Some(PositionDict(z)) => z.GetOr(0.0)
      case _ => 0.0;
    var weighted := WeightedScore(m, exp);
    var tMult := TerrainMultiplier(tMode);
    ScoreReport(
      ScoreStability(m.displacement.GetOr(0.0), exp),
      ScoreUprightness(m.tiltCos.GetOr(0.0)),
      ScoreGrounding(z, IdealHeight),
      Round(weighted, 2),
      tMult,
      tMode,
      FinalScore(weighted, tMult))
  }

  /** src/score.py `compute_score`: `ValueError` for `None`, an empty dict or
      a value that is not a dict; otherwise the components, the weighted
      average, the terrain multiplier and the final score in [0, 100]. */
  function ComputeScore(metrics: MetricsArg, terrainMode: Option<string>, exp: real -> real): (r: Result<ScoreReport, string>)
    ensures r.Err? <==> metrics.NoMetrics? || metrics.NotDict? || (metrics.Dict? && metrics.m.IsEmpty())
    ensures r.Err? ==> r.error == ErrNotDict
    ensures r.Ok? ==> 0.0 <= r.value.finalScore <= 100.0
    ensures r.Ok? ==> r.value.terrainMode == ChosenTerrain(metrics.m, terrainMode)
    ensures r.Ok? && terrainMode.Some? && terrainMode.value != "" ==> r.value.terrainMode == terrainMode
    ensures r.Ok? ==> r.value.multiplier == TerrainMultiplier(r.value.terrainMode) >= 1.0
  {
    if metrics.NoMetrics? || metrics.NotDict? || metrics.m.IsEmpty() then Err(ErrNotDict)
    else Ok(Report(metrics.m, ChosenTerrain(metrics.m, terrainMode), exp))
  }

  /** The three weights sum to one. */
  lemma WeightsSumToOne()
    ensures WeightStability + WeightUprightness + WeightGrounding == 1.0
  {
  }

  /** Perfect metrics on flat ground score 100. */
  lemma PerfectScore(m: Metrics, exp: real -> real)
    requires !m.IsEmpty() && exp(0.0) == 1.0
    requires m.displacement == Some(0.0) && m.tiltCos == Some(1.0)
    requires m.finalPosition == Some(PositionDict(Some(IdealHeight)))
    ensures ComputeScore(Dict(m), Some("flat"), exp).Ok?
    ensures ComputeScore(Dict(m), Some("flat"), exp).value.finalScore == 100.0
  {
    StabilityAtRest(0.0, exp);
    assert WeightedScore(m, exp) == 100.0;
    TerrainMultiplierTable();
    RoundWhole(100, 1);
    assert FinalScore(100.0, 1.0) == 100.0;
  }

  /** A harder terrain never lowers the final score of the same metrics. */
  lemma HarderTerrainNeverLowers(m: Metrics, t1: string, t2: string, exp: real -> real)
    requires !m.IsEmpty() && t1 != "" && t2 != ""
    requires TerrainMultiplier(Some(t1)) <= TerrainMultiplier(Some(t2))
    ensures ComputeScore(Dict(m), Some(t1), exp).value.finalScore <= ComputeScore(Dict(m), Some(t2), exp).value.finalScore
  {
    var w := WeightedScore(m, exp);
    var k1 := TerrainMultiplier(Some(t1));
    var k2 := TerrainMultiplier(Some(t2));
    FinalScoreMonotone(w, k1, k2);
    assert ComputeScore(Dict(m), Some(t1), exp) == Ok(Report(m, Some(t1), exp));
    assert ComputeScore(Dict(m), Some(t2), exp) == Ok(Report(m, Some(t2), exp));
  }

  /** src/score.py `score_label`: inclusive lower thresholds. */
  function ScoreLabel(finalScore: real): (r: string)
    ensures r == "Excellent" <==> finalScore >= 90.0
    ensures r == "Great" <==> 75.0 <= finalScore < 90.0
    ensures r == "Good" <==> 60.0 <= finalScore < 75.0
    ensures r == "Fair" <==> 40.0 <= finalScore < 60.0
    ensures r == "Poor" <==> 20.0 <= finalScore < 40.0
    ensures r == "Unstable" <==> finalScore < 20.0
  {
    if finalScore >= 90.0 then "Excellent"
    else if finalScore >= 75.0 then "Great"
    else if finalScore >= 60.0 then "Good"
    else if finalScore >= 40.0 then "Fair"
    else if finalScore >= 20.0 then "Poor"
    else "Unstable"
  }

  /** The position of a label on the scale, from "Unstable" (0) up. */
  function LabelRank(name: string): nat {
    if name == "Excellent" then 5
    else if name == "Great" then 4
    else if name == "Good" then 3
    else if name == "Fair" then 2
    else if name == "Poor" then 1
    else 0
  }

  /** A higher score never gets a lower label. */
  lemma ScoreLabelMonotone(x: real, y: real)
    requires x <= y
    ensures LabelRank(ScoreLabel(x)) <= LabelRank(ScoreLabel(y))
  {
  }
}

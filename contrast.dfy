/** The material comparison page: the magnitude read out of a catalogue value, the
    radar chart that scores each material against the best of the selection, the union
    of property keys, and the side-by-side table. */
module Contrast {
  import opened Wrappers
  import opened Text
  import JsObject
  import Seqs
  import opened Catalogue

  // ---------------------------------------------------------------------------
  // parseValue: the first match of /(\d+(\.\d+)?)/, read as a decimal
  // ---------------------------------------------------------------------------

  predicate AllDigits(s: string)
  {
    forall k :: 0 <= k < |s| ==> IsDigit(s[k])
  }

  /** Index of the first ASCII digit of `s`, or `|s|` when there is none. */
  function FirstDigitIndex(s: string): (i: nat)
    ensures i <= |s|
    ensures forall k :: 0 <= k < i ==> !IsDigit(s[k])
    ensures i < |s| ==> IsDigit(s[i])
  {
    if s == [] || IsDigit(s[0]) then 0 else 1 + FirstDigitIndex(s[1..])
  }

  /** The end of the run of digits that starts at index `j`. */
  function DigitsEnd(s: string, j: nat): (r: nat)
    requires j <= |s|
    ensures j <= r <= |s|
    ensures forall k :: j <= k < r ==> IsDigit(s[k])
    ensures r < |s| ==> !IsDigit(s[r])
    decreases |s| - j
  {
    if j < |s| && IsDigit(s[j]) then DigitsEnd(s, j + 1) else j
  }

  /** The two groups of a match of `\d+(\.\d+)?`: the integer digits and, when the
      optional group took part, the digits after the point. */
  datatype NumberToken = NumberToken(whole: string, frac: Option<string>)
  {
    predicate WellFormed()
    {
      whole != [] && AllDigits(whole) && (frac.Some? ==> frac.value != [] && AllDigits(frac.value))
    }

    /** Length of the matched text `match[0]`. */
    function Length(): nat
    {
      |whole| + (if frac.Some? then 1 + |frac.value| else 0)
    }
  }

  /** `t` is the leftmost-longest match of `\d+(\.\d+)?` in `s`, starting at `i`:
      no digit comes before it, the digit runs cannot be extended, and when no
      fraction was taken the text after it is not a point followed by a digit. */
  predicate IsFirstMatch(s: string, t: NumberToken, i: nat)
  {
    var e1 := i + |t.whole|;
    var e := i + t.Length();
    && t.WellFormed()
    && e <= |s|
    && s[i..e1] == t.whole
    && (t.frac.Some? ==> s[e1] == '.' && s[e1 + 1..e] == t.frac.value)
    && (forall k :: 0 <= k < i ==> !IsDigit(s[k]))
    && (e == |s| || !IsDigit(s[e]))
    && (t.frac.None? ==> !(e + 1 < |s| && s[e] == '.' && IsDigit(s[e + 1])))
  }

  /** `s.match(/(\d+(\.\d+)?)/)`: the digit run at the first digit, extended by a
      point and the digit run after it when a digit follows the point. */
  function FirstNumber(s: string): (r: Option<NumberToken>)
    ensures r.None? <==> forall k :: 0 <= k < |s| ==> !IsDigit(s[k])
    ensures r.Some? ==> IsFirstMatch(s, r.value, FirstDigitIndex(s))
  {
    var i := FirstDigitIndex(s);
    if i == |s| then None
    else
      var e1 := DigitsEnd(s, i);
      if e1 + 1 < |s| && s[e1] == '.' && IsDigit(s[e1 + 1]) then
        var e := DigitsEnd(s, e1 + 1);
        FractionMatch(s, i, e1, e);
        Some(NumberToken(s[i..e1], Some(s[e1 + 1..e])))
      else
        WholeMatch(s, i, e1);
        Some(NumberToken(s[i..e1], None))
  }

  /** A digit run, a point and a second digit run, with no digit before them and none
      after, are the first match, fraction included. */
  lemma FractionMatch(s: string, i: nat, e1: nat, e: nat)
    requires i < e1 < e <= |s| && s[e1] == '.'
    requires forall k :: 0 <= k < i ==> !IsDigit(s[k])
    requires forall k :: i <= k < e1 ==> IsDigit(s[k])
    requires forall k :: e1 + 1 <= k < e ==> IsDigit(s[k])
    requires e1 + 1 < e && (e == |s| || !IsDigit(s[e]))
    ensures IsFirstMatch(s, NumberToken(s[i..e1], Some(s[e1 + 1..e])), i)
  {
    var t := NumberToken(s[i..e1], Some(s[e1 + 1..e]));
    assert AllDigits(t.whole) by {
      forall k | 0 <= k < |t.whole| ensures IsDigit(t.whole[k]) { assert t.whole[k] == s[i + k]; }
    }
    assert AllDigits(t.frac.value) by {
      forall k | 0 <= k < |t.frac.value| ensures IsDigit(t.frac.value[k]) { assert t.frac.value[k] == s[e1 + 1 + k]; }
    }
  }

  /** A digit run with no digit before it, not followed by a point and a digit, is the
      first match, without a fraction. */
  lemma WholeMatch(s: string, i: nat, e1: nat)
    requires i < e1 <= |s|
    requires forall k :: 0 <= k < i ==> !IsDigit(s[k])
    requires forall k :: i <= k < e1 ==> IsDigit(s[k])
    requires e1 == |s| || !IsDigit(s[e1])
    requires !(e1 + 1 < |s| && s[e1] == '.' && IsDigit(s[e1 + 1]))
    ensures IsFirstMatch(s, NumberToken(s[i..e1], None), i)
  {
    var t := NumberToken(s[i..e1], None);
    assert AllDigits(t.whole) by {
      forall k | 0 <= k < |t.whole| ensures IsDigit(t.whole[k]) { assert t.whole[k] == s[i + k]; }
    }
  }

  /** The natural number a digit string denotes. */
  function NatOf(d: string): nat
    requires AllDigits(d)
  {
    if d == [] then 0 else NatOf(d[..|d| - 1]) * 10 + DigitValue(d[|d| - 1])
  }

  function Pow10(n: nat): (p: nat)
    ensures p >= 1
  {
    if n == 0 then 1 else 10 * Pow10(n - 1)
  }

  /** `parseFloat(match[0])`, exactly, as a rational number. */
  function TokenValue(t: NumberToken): real
    requires t.WellFormed()
  {
    NatOf(t.whole) as real + (if t.frac.Some? then NatOf(t.frac.value) as real / Pow10(|t.frac.value|) as real else 0.0)
  }

  /** `parseValue`: 0 for a missing or empty value and for a value without digits,
      otherwise the decimal number that first appears in it; never negative, since a
      minus sign is not part of the match. */
  function ParseValue(val: Option<string>): (r: real)
    ensures r >= 0.0
    ensures !Truthy(val) ==> r == 0.0
    ensures Truthy(val) ==> match FirstNumber(val.value)
                            case None => r == 0.0
                            case Some(t) => r == TokenValue(t)
  {
    if !Truthy(val) then 0.0
    else match FirstNumber(val.value)
      case None => 0.0
      case Some(t) => TokenValueNonNegative(t); TokenValue(t)
  }

  lemma TokenValueNonNegative(t: NumberToken)
    requires t.WellFormed()
    ensures TokenValue(t) >= 0.0
  {
    if t.frac.Some? {
      var p := Pow10(|t.frac.value|) as real;
      assert NatOf(t.frac.value) as real / p >= 0.0;
    }
  }

  /** A value without any digit parses to 0. */
  lemma ParseValueNoDigits(s: string)
    requires forall k :: 0 <= k < |s| ==> !IsDigit(s[k])
    ensures ParseValue(Some(s)) == 0.0
  {
  }

  /** The decimal rendering of a natural number (no leading zeros). */
  function Decimal(n: nat): (d: string)
    ensures d != [] && AllDigits(d)
  {
    var c := ('0' as int + n % 10) as char;
    if n < 10 then [c] else Decimal(n / 10) + [c]
  }

  lemma {:induction false} NatOfDecimal(n: nat)
    ensures NatOf(Decimal(n)) == n
  {
    if n >= 10 {
      NatOfDecimal(n / 10);
      var d := Decimal(n);
      assert d[..|d| - 1] == Decimal(n / 10);
    }
  }

  lemma {:induction false} FirstDigitIndexAfter(pre: string, x: string)
    requires forall k :: 0 <= k < |pre| ==> !IsDigit(pre[k])
    requires x != [] && IsDigit(x[0])
    ensures FirstDigitIndex(pre + x) == |pre|
  {
    if pre != [] {
      assert (pre + x)[1..] == pre[1..] + x;
      FirstDigitIndexAfter(pre[1..], x);
    }
  }

  lemma DigitsEndOf(pre: string, d: string, post: string)
    requires AllDigits(d)
    requires post == [] || !IsDigit(post[0])
    ensures DigitsEnd(pre + d + post, |pre|) == |pre| + |d|
  {
    var s := pre + d + post;
    assert forall k :: |pre| <= k < |pre| + |d| ==> s[k] == d[k - |pre|];
    assert |pre| + |d| < |s| ==> s[|pre| + |d|] == post[0];
  }

  /** Round trip: a whole number written in decimal between text without digits and
      text that does not continue the number parses back to that number. */
  lemma ParseValueOfDecimal(pre: string, n: nat, post: string)
    requires forall k :: 0 <= k < |pre| ==> !IsDigit(pre[k])
    requires post == [] || (!IsDigit(post[0]) && !(post[0] == '.' && |post| >= 2 && IsDigit(post[1])))
    ensures ParseValue(Some(pre + Decimal(n) + post)) == n as real
  {
    var d := Decimal(n);
    var s := pre + d + post;
    assert s == pre + (d + post);
    FirstDigitIndexAfter(pre, d + post);
    DigitsEndOf(pre, d, post);
    assert s[|pre|..|pre| + |d|] == d;
    assert FirstNumber(s) == Some(NumberToken(d, None));
    NatOfDecimal(n);
  }

  /** A range reads as its lower end: `38-92` reads 38. */
  lemma ParseValueRange()
    ensures ParseValue(Some("38-92")) == 38.0
  {
    assert Decimal(38) == "38" by {
      assert Decimal(3) == "3";
    }
    assert "" + Decimal(38) + "-92" == "38-92";
    ParseValueOfDecimal("", 38, "-92");
  }

  /** A percentage reads as its number: `29%` reads 29. */
  lemma ParseValuePercent()
    ensures ParseValue(Some("29%")) == 29.0
  {
    assert Decimal(29) == "29" by {
      assert Decimal(2) == "2";
    }
    assert "" + Decimal(29) + "%" == "29%";
    ParseValueOfDecimal("", 29, "%");
  }

  /** A leading point is skipped: `.5` reads 5. */
  lemma ParseValueLeadingPoint()
    ensures ParseValue(Some(".5")) == 5.0
  {
    assert Decimal(5) == "5";
    assert "." + Decimal(5) + "" == ".5";
    ParseValueOfDecimal(".", 5, "");
  }

  /** Placeholders without digits read 0, as do a missing and an empty value. */
  lemma ParseValuePlaceholders()
    ensures ParseValue(Some("Bal.")) == 0.0
    ensures ParseValue(Some("-")) == 0.0
    ensures ParseValue(Some("/")) == 0.0
    ensures ParseValue(Some("")) == 0.0
    ensures ParseValue(None) == 0.0
  {
    ParseValueNoDigits("Bal.");
    ParseValueNoDigits("-");
    ParseValueNoDigits("/");
  }

  /** Only one fractional part is taken: `1.2.3` reads as 1.2. */
  lemma ParseValueStopsAtSecondPoint()
    ensures ParseValue(Some("1.2.3")) == 1.2
  {
    var s := "1.2.3";
    assert FirstDigitIndex(s) == 0;
    assert DigitsEnd(s, 0) == 1;
    assert DigitsEnd(s, 2) == 3;
    assert s[0..1] == "1" && s[2..3] == "2";
    assert NatOf("1") == 1 && NatOf("2") == 2;
  }

  // ---------------------------------------------------------------------------
  // radarData
  // ---------------------------------------------------------------------------

  /** A radar axis: the property key, its label, the group it is read from, and
      whether a lower value is better (declared for density, read by nothing). */
  datatype Metric = Metric(key: string, heading: string, path: string, inverse: bool)

  const Metrics: seq<Metric> := [
    Metric("屈服强度", "屈服强度", "力学性能", false),
    Metric("抗拉强度", "抗拉强度", "力学性能", false),
    Metric("断后伸长率", "塑性(伸长率)", "力学性能", false),
    Metric("冲击功", "韧性(冲击功)", "力学性能", false),
    Metric("密度", "密度(轻量化)", "物理性能", true)
  ]

  lemma MetricKeysDistinct()
    ensures forall i, j :: 0 <= i < j < |Metrics| ==> Metrics[i].key != Metrics[j].key
  {
  }

  /** `m.technicalSpecifications[group]?.[key]`. */
  function SpecValue(m: Material, group: string, key: string): (r: Option<string>)
    ensures r.Some? <==> group in m.technicalSpecifications && key in m.technicalSpecifications[group].keys
  {
    if group in m.technicalSpecifications then JsObject.Get(m.technicalSpecifications[group], key) else None
  }

  /** The parsed value of one material on one axis. */
  function RawValue(m: Material, metric: Metric): (r: real)
    ensures r >= 0.0
  {
    ParseValue(SpecValue(m, metric.path, metric.key))
  }

  /** The running `max` after the inner loop: the largest raw value, starting from 0. */
  function LargestRaw(ms: seq<Material>, metric: Metric): real
  {
    if ms == [] then 0.0
    else
      var mx := LargestRaw(ms[..|ms| - 1], metric);
      var v := RawValue(ms[|ms| - 1], metric);
      if v > mx then v else mx
  }

  /** `maxValues[prop.key] = max || 1`. */
  function MetricMax(ms: seq<Material>, metric: Metric): real
  {
    var mx := LargestRaw(ms, metric);
    if mx == 0.0 then 1.0 else mx
  }

  /** The largest raw value bounds every material's value and is one of them, or 0. */
  lemma {:induction false} LargestRawSpec(ms: seq<Material>, metric: Metric)
    ensures LargestRaw(ms, metric) >= 0.0
    ensures forall i :: 0 <= i < |ms| ==> RawValue(ms[i], metric) <= LargestRaw(ms, metric)
    ensures LargestRaw(ms, metric) == 0.0 || exists i :: 0 <= i < |ms| && RawValue(ms[i], metric) == LargestRaw(ms, metric)
  {
    if ms != [] {
      var t := ms[..|ms| - 1];
      LargestRawSpec(t, metric);
      forall i | 0 <= i < |t|
        ensures RawValue(ms[i], metric) == RawValue(t[i], metric)
      {
        assert ms[i] == t[i];
      }
    }
  }

  /** The axis maximum is positive, bounds every value, and is attained by some
      material unless every value is 0, in which case it is 1. */
  lemma MetricMaxSpec(ms: seq<Material>, metric: Metric)
    ensures MetricMax(ms, metric) > 0.0
    ensures forall i :: 0 <= i < |ms| ==> RawValue(ms[i], metric) <= MetricMax(ms, metric)
    ensures (exists i :: 0 <= i < |ms| && RawValue(ms[i], metric) == MetricMax(ms, metric))
            || (MetricMax(ms, metric) == 1.0 && forall i :: 0 <= i < |ms| ==> RawValue(ms[i], metric) == 0.0)
  {
    LargestRawSpec(ms, metric);
  }

  /** `Math.round`, exactly: halves go up. */
  function Round(x: real): int
  {
    (x + 0.5).Floor
  }

  /** A material's score on an axis: its share of the maximum in percent, rounded,
      with a value of 0 forced to score 0. */
  function Score(raw: real, max: real): int
    requires max > 0.0
  {
    var normalized := if raw == 0.0 then 0.0 else raw / max * 100.0;
    Round(normalized)
  }

  /** Scores lie in [0, 100]; the maximum scores 100 and a zero scores 0. */
  lemma ScoreSpec(raw: real, max: real)
    requires max > 0.0 && 0.0 <= raw <= max
    ensures 0 <= Score(raw, max) <= 100
    ensures raw == max ==> Score(raw, max) == 100
    ensures raw == 0.0 ==> Score(raw, max) == 0
  {
    var q := raw / max;
    assert q * max == raw;
    assert 0.0 <= q <= 1.0;
  }

  lemma Reads636()
    ensures ParseValue(Some("636")) == 636.0
  {
    assert Decimal(636) == "636" by {
      assert Decimal(6) == "6";
      assert Decimal(63) == "63";
    }
    ParseValueOfDecimal("", 636, "");
    assert "" + Decimal(636) + "" == "636";
  }

  lemma Reads602()
    ensures ParseValue(Some("602")) == 602.0
  {
    assert Decimal(602) == "602" by {
      assert Decimal(6) == "6";
      assert Decimal(60) == "60";
    }
    ParseValueOfDecimal("", 602, "");
    assert "" + Decimal(602) + "" == "602";
  }

  /** AL-01 and AL-02 of the catalogue have yield strengths `636` and `602`: on that
      axis the stronger scores 100 and the other round(94.65…) = 95. */
  lemma AluminiumYieldExample()
    ensures ParseValue(Some("636")) == 636.0 && ParseValue(Some("602")) == 602.0
    ensures Score(ParseValue(Some("636")), 636.0) == 100 && Score(ParseValue(Some("602")), 636.0) == 95
  {
    Reads636();
    Reads602();
    assert 602.0 / 636.0 * 100.0 + 0.5 == 60518.0 / 636.0;
  }

  /** One point of the chart: `dataPoint[m.id]` (the score) and `dataPoint[m.id + '_raw']`
      (the parsed value) for every material, kept as two maps keyed by id. */
  datatype DataPoint = DataPoint(subject: string, fullMark: int, scores: map<string, int>, raws: map<string, real>)

  function ScoresOf(ms: seq<Material>, metric: Metric, max: real): map<string, int>
    requires max > 0.0
  {
    if ms == [] then map[]
    else
      var m := ms[|ms| - 1];
      ScoresOf(ms[..|ms| - 1], metric, max)[m.id := Score(RawValue(m, metric), max)]
  }

  function RawsOf(ms: seq<Material>, metric: Metric): map<string, real>
  {
    if ms == [] then map[]
    else
      var m := ms[|ms| - 1];
      RawsOf(ms[..|ms| - 1], metric)[m.id := RawValue(m, metric)]
  }

  function PointSpec(ms: seq<Material>, metric: Metric): DataPoint
  {
    MetricMaxSpec(ms, metric);
    DataPoint(metric.heading, 100, ScoresOf(ms, metric, MetricMax(ms, metric)), RawsOf(ms, metric))
  }

  /** The chart data: one point per axis, in the fixed axis order. */
  function RadarSpec(ms: seq<Material>): seq<DataPoint>
  {
    seq(|Metrics|, j requires 0 <= j < |Metrics| => PointSpec(ms, Metrics[j]))
  }

  /** `radarData`: a first pass fills `maxValues` with each axis's maximum, a second
      builds one point per axis. */
  method RadarData(ms: seq<Material>) returns (points: seq<DataPoint>)
    ensures points == RadarSpec(ms)
  {
    MetricKeysDistinct();
    var maxValues: map<string, real> := map[];
    for j := 0 to |Metrics|
      invariant forall jj :: 0 <= jj < j ==> Metrics[jj].key in maxValues && maxValues[Metrics[jj].key] == MetricMax(ms, Metrics[jj])
    {
      var max := AxisMax(ms, Metrics[j]);
      maxValues := maxValues[Metrics[j].key := max];
    }
    points := [];
    for j := 0 to |Metrics|
      invariant |points| == j
      invariant forall jj :: 0 <= jj < j ==> points[jj] == PointSpec(ms, Metrics[jj])
    {
      var p := AxisPoint(ms, Metrics[j], maxValues[Metrics[j].key]);
      Seqs.SnocKeeps(points, p);
      points := points + [p];
    }
  }

  /** The first pass for one axis: the running maximum, then `max || 1`. */
  method AxisMax(ms: seq<Material>, prop: Metric) returns (result: real)
    ensures result == MetricMax(ms, prop)
  {
    var max := 0.0;
    for i := 0 to |ms|
      invariant max == LargestRaw(ms[..i], prop)
    {
      Seqs.TakeSnoc(ms, i);
      var val := RawValue(ms[i], prop);
      if val > max {
        max := val;
      }
    }
    assert ms[..|ms|] == ms;
    result := if max == 0.0 then 1.0 else max;
  }

  /** The second pass for one axis: every material's score and raw value. */
  method AxisPoint(ms: seq<Material>, prop: Metric, max: real) returns (p: DataPoint)
    requires max == MetricMax(ms, prop)
    ensures p == PointSpec(ms, prop)
  {
    MetricMaxSpec(ms, prop);
    var scores: map<string, int> := map[];
    var raws: map<string, real> := map[];
    for i := 0 to |ms|
      invariant scores == ScoresOf(ms[..i], prop, max)
      invariant raws == RawsOf(ms[..i], prop)
    {
      Seqs.TakeSnoc(ms, i);
      var rawVal := RawValue(ms[i], prop);
      var normalizedVal := rawVal / max * 100.0;
      if rawVal == 0.0 {
        normalizedVal := 0.0;
      }
      assert Round(normalizedVal) == Score(rawVal, max);
      scores := scores[ms[i].id := Round(normalizedVal)];
      raws := raws[ms[i].id := rawVal];
      assert scores == ScoresOf(ms[..i + 1], prop, max);
    }
    assert ms[..|ms|] == ms;
    p := DataPoint(prop.heading, 100, scores, raws);
  }

  /** The ids of the materials, as a set. */
  function Ids(ms: seq<Material>): set<string>
  {
    set i | 0 <= i < |ms| :: ms[i].id
  }

  /** Each point has exactly the selected ids as keys. */
  lemma {:induction false} ScoresOfKeys(ms: seq<Material>, metric: Metric, max: real)
    requires max > 0.0
    ensures ScoresOf(ms, metric, max).Keys == Ids(ms)
    ensures RawsOf(ms, metric).Keys == Ids(ms)
  {
    if ms != [] {
      ScoresOfKeys(ms[..|ms| - 1], metric, max);
      IdsSnoc(ms);
    }
  }

  lemma IdsSnoc(ms: seq<Material>)
    requires ms != []
    ensures Ids(ms) == Ids(ms[..|ms| - 1]) + {ms[|ms| - 1].id}
  {
    var t := ms[..|ms| - 1];
    forall x | x in Ids(ms)
      ensures x in Ids(t) + {ms[|ms| - 1].id}
    {
      var i :| 0 <= i < |ms| && ms[i].id == x;
      if i < |t| {
        assert t[i] == ms[i];
      }
    }
    forall x | x in Ids(t)
      ensures x in Ids(ms)
    {
      var i :| 0 <= i < |t| && t[i].id == x;
      assert ms[i] == t[i];
    }
  }

  /** The score of a material is the one it wrote, unless a later material has the same id. */
  lemma {:induction false} ScoresOfValues(ms: seq<Material>, metric: Metric, max: real, i: nat)
    requires max > 0.0 && i < |ms|
    requires forall j :: i < j < |ms| ==> ms[j].id != ms[i].id
    ensures ms[i].id in ScoresOf(ms, metric, max)
    ensures ScoresOf(ms, metric, max)[ms[i].id] == Score(RawValue(ms[i], metric), max)
  {
    var t := ms[..|ms| - 1];
    if i < |t| {
      LaterIdsOfPrefix(ms, i);
      assert ms[|ms| - 1].id != t[i].id;
      ScoresOfValues(t, metric, max, i);
    }
  }

  /** The raw value of a material is the one it wrote, unless a later material has the same id. */
  lemma {:induction false} RawsOfValues(ms: seq<Material>, metric: Metric, i: nat)
    requires i < |ms|
    requires forall j :: i < j < |ms| ==> ms[j].id != ms[i].id
    ensures ms[i].id in RawsOf(ms, metric)
    ensures RawsOf(ms, metric)[ms[i].id] == RawValue(ms[i], metric)
  {
    var t := ms[..|ms| - 1];
    if i < |t| {
      LaterIdsOfPrefix(ms, i);
      assert ms[|ms| - 1].id != t[i].id;
      RawsOfValues(t, metric, i);
    }
  }

  lemma LaterIdsOfPrefix(ms: seq<Material>, i: nat)
    requires i < |ms| - 1
    requires forall j :: i < j < |ms| ==> ms[j].id != ms[i].id
    ensures var t := ms[..|ms| - 1]; t[i] == ms[i] && forall j :: i < j < |t| ==> t[j].id != t[i].id
  {
  }

  /** The chart has the five axes in their fixed order; every score is in [0, 100];
      a material at the axis maximum scores 100, a material with value 0 scores 0, and
      the raw value is kept next to the score. */
  lemma RadarSpecProperties(ms: seq<Material>)
    requires forall i, j :: 0 <= i < j < |ms| ==> ms[i].id != ms[j].id
    ensures |RadarSpec(ms)| == 5
    ensures forall j :: 0 <= j < 5 ==> RadarSpec(ms)[j].subject == Metrics[j].heading && RadarSpec(ms)[j].fullMark == 100
    ensures forall j, i :: 0 <= j < 5 && 0 <= i < |ms| ==>
              var p := RadarSpec(ms)[j];
              var raw := RawValue(ms[i], Metrics[j]);
              && ms[i].id in p.scores && ms[i].id in p.raws
              && 0 <= p.scores[ms[i].id] <= 100
              && p.raws[ms[i].id] == raw
              && (raw == MetricMax(ms, Metrics[j]) ==> p.scores[ms[i].id] == 100)
              && (raw == 0.0 ==> p.scores[ms[i].id] == 0)
  {
    forall j, i | 0 <= j < 5 && 0 <= i < |ms|
      ensures var p := RadarSpec(ms)[j];
              var raw := RawValue(ms[i], Metrics[j]);
              && ms[i].id in p.scores && ms[i].id in p.raws
              && 0 <= p.scores[ms[i].id] <= 100
              && p.raws[ms[i].id] == raw
              && (raw == MetricMax(ms, Metrics[j]) ==> p.scores[ms[i].id] == 100)
              && (raw == 0.0 ==> p.scores[ms[i].id] == 0)
    {
      var metric := Metrics[j];
      var max := MetricMax(ms, metric);
      MetricMaxSpec(ms, metric);
      ScoresOfValues(ms, metric, max, i);
      RawsOfValues(ms, metric, i);
      ScoreSpec(RawValue(ms[i], metric), max);
    }
  }

  /** The density axis is marked `inverse`, but no score depends on the flag. */
  lemma InverseFlagUnused(ms: seq<Material>, metric: Metric)
    ensures PointSpec(ms, metric.(inverse := !metric.inverse)) == PointSpec(ms, metric)
  {
    var flipped := metric.(inverse := !metric.inverse);
    assert forall m :: RawValue(m, flipped) == RawValue(m, metric);
    assert LargestRaw(ms, flipped) == LargestRaw(ms, metric) by {
      LargestRawFlag(ms, metric, flipped);
    }
    ScoresFlag(ms, metric, flipped, MetricMax(ms, metric));
  }

  lemma {:induction false} LargestRawFlag(ms: seq<Material>, a: Metric, b: Metric)
    requires a.key == b.key && a.path == b.path
    ensures LargestRaw(ms, a) == LargestRaw(ms, b)
  {
    if ms != [] {
      LargestRawFlag(ms[..|ms| - 1], a, b);
    }
  }

  lemma {:induction false} ScoresFlag(ms: seq<Material>, a: Metric, b: Metric, max: real)
    requires a.key == b.key && a.path == b.path && max > 0.0
    ensures ScoresOf(ms, a, max) == ScoresOf(ms, b, max) && RawsOf(ms, a) == RawsOf(ms, b)
  {
    if ms != [] {
      ScoresFlag(ms[..|ms| - 1], a, b, max);
    }
  }

  // ---------------------------------------------------------------------------
  // getUniqueKeys
  // ---------------------------------------------------------------------------

  /** `Object.keys(m.technicalSpecifications[group])`, or nothing when the group is absent. */
  function GroupKeys(m: Material, group: string): seq<string>
  {
    if group in m.technicalSpecifications then m.technicalSpecifications[group].keys else []
  }

  /** Every key of the group, material by material, repeats included. */
  function AllKeys(ms: seq<Material>, group: string): seq<string>
  {
    if ms == [] then [] else AllKeys(ms[..|ms| - 1], group) + GroupKeys(ms[|ms| - 1], group)
  }

  function UniqueKeys(ms: seq<Material>, group: string): seq<string>
  {
    Seqs.Dedup(AllKeys(ms, group))
  }

  /** `getUniqueKeys`: every key of every material's group is added to a `Set`,
      which is then read back in insertion order. */
  method GetUniqueKeys(ms: seq<Material>, group: string) returns (keys: seq<string>)
    ensures keys == UniqueKeys(ms, group)
  {
    keys := [];
    for i := 0 to |ms|
      invariant keys == Seqs.Dedup(AllKeys(ms[..i], group))
    {
      Seqs.TakeSnoc(ms, i);
      keys := AddKeys(keys, GroupKeys(ms[i], group), AllKeys(ms[..i], group));
    }
    assert ms[..|ms|] == ms;
  }

  /** `Object.keys(group).forEach(k => keys.add(k))` on the set of the keys seen so far. */
  method AddKeys(keys: seq<string>, gk: seq<string>, ghost seen: seq<string>) returns (result: seq<string>)
    requires keys == Seqs.Dedup(seen)
    ensures result == Seqs.Dedup(seen + gk)
  {
    result := keys;
    assert seen + gk[..0] == seen;
    for j := 0 to |gk|
      invariant result == Seqs.Dedup(seen + gk[..j])
    {
      Seqs.PrefixSnoc(seen, gk, j);
      if gk[j] !in result {
        result := result + [gk[j]];
      }
    }
    assert gk[..|gk|] == gk;
  }

  lemma {:induction false} AllKeysMembership(ms: seq<Material>, group: string)
    ensures forall k :: k in AllKeys(ms, group) ==> exists i :: 0 <= i < |ms| && k in GroupKeys(ms[i], group)
    ensures forall i, k :: 0 <= i < |ms| && k in GroupKeys(ms[i], group) ==> k in AllKeys(ms, group)
  {
    if ms != [] {
      var t := ms[..|ms| - 1];
      AllKeysMembership(t, group);
      assert forall i :: 0 <= i < |t| ==> ms[i] == t[i];
    }
  }

  /** The union of keys holds every key of the group across the selection, each once,
      in order of first appearance, and is empty exactly when no material has a key
      in that group. */
  lemma UniqueKeysSpec(ms: seq<Material>, group: string)
    ensures forall k :: k in UniqueKeys(ms, group) ==> exists i :: 0 <= i < |ms| && k in GroupKeys(ms[i], group)
    ensures forall i, k :: 0 <= i < |ms| && k in GroupKeys(ms[i], group) ==> k in UniqueKeys(ms, group)
    ensures Seqs.Distinct(UniqueKeys(ms, group))
    ensures forall a, b :: 0 <= a < b < |UniqueKeys(ms, group)| ==>
              Seqs.FirstIndex(AllKeys(ms, group), UniqueKeys(ms, group)[a]) < Seqs.FirstIndex(AllKeys(ms, group), UniqueKeys(ms, group)[b])
    ensures UniqueKeys(ms, group) == [] <==> forall i :: 0 <= i < |ms| ==> GroupKeys(ms[i], group) == []
  {
    AllKeysMembership(ms, group);
    Seqs.DedupSpec(AllKeys(ms, group));
    UniqueKeysEmpty(ms, group);
  }

  /** The union is empty exactly when every material's group is. */
  lemma UniqueKeysEmpty(ms: seq<Material>, group: string)
    ensures UniqueKeys(ms, group) == [] <==> forall i :: 0 <= i < |ms| ==> GroupKeys(ms[i], group) == []
  {
    AllKeysEmpty(ms, group);
    if UniqueKeys(ms, group) == [] {
      Seqs.DedupEmpty(AllKeys(ms, group));
    } else {
      Seqs.DedupSpec(AllKeys(ms, group));
      assert UniqueKeys(ms, group)[0] in AllKeys(ms, group);
    }
  }

  lemma {:induction false} AllKeysEmpty(ms: seq<Material>, group: string)
    ensures AllKeys(ms, group) == [] <==> forall i :: 0 <= i < |ms| ==> GroupKeys(ms[i], group) == []
  {
    if ms != [] {
      var t := ms[..|ms| - 1];
      AllKeysEmpty(t, group);
      assert forall i :: 0 <= i < |t| ==> ms[i] == t[i];
    }
  }

  // ---------------------------------------------------------------------------
  // The comparison table
  // ---------------------------------------------------------------------------

  /** What one cell shows: text, a grade badge, or a list of application chips. */
  datatype Cell = Plain(text: string) | Badge(text: string) | Chips(items: seq<string>)

  /** A row: its label, then one cell per selected material. */
  datatype Row = Row(heading: string, cells: seq<Cell>)

  /** A titled block of rows. */
  datatype Section = Section(title: string, rows: seq<Row>)

  /** `renderRow`: the label and the accessor applied to each material in turn. */
  function RenderRow(heading: string, ms: seq<Material>, accessor: Material -> Cell): Row
  {
    Row(heading, seq(|ms|, i requires 0 <= i < |ms| => accessor(ms[i])))
  }

  /** `v || '-'` in a plain cell. */
  function DashCell(v: Option<string>): Cell
  {
    Plain(OrElse(v, "-"))
  }

  /** `renderPropertySection`: nothing when the union of keys is empty, otherwise a
      row per key with the material's value in the group, or `-`. */
  function PropertySection(ms: seq<Material>, group: string): (r: Option<Section>)
    ensures r.None? <==> UniqueKeys(ms, group) == []
    ensures r.Some? ==>
              var keys := UniqueKeys(ms, group);
              && r.value.title == group
              && |r.value.rows| == |keys|
              && forall k :: 0 <= k < |keys| ==>
                   && r.value.rows[k].heading == keys[k]
                   && |r.value.rows[k].cells| == |ms|
                   && forall i :: 0 <= i < |ms| ==>
                        r.value.rows[k].cells[i] == Plain(if Truthy(SpecValue(ms[i], group, keys[k]))
                                                          then SpecValue(ms[i], group, keys[k]).value else "-")
  {
    var keys := UniqueKeys(ms, group);
    if keys == [] then None
    else
      Some(Section(group, seq(|keys|, k requires 0 <= k < |keys| =>
        RenderRow(keys[k], ms, (m: Material) => DashCell(SpecValue(m, group, keys[k]))))))
  }

  /** The four property groups of the table, in display order. */
  const PropertyGroups: seq<string> := ["化学成分", "力学性能", "物理性能", "热性能"]

  /** The sections of the groups that have at least one key, in the order of `groups`. */
  function PropertySections(ms: seq<Material>, groups: seq<string>): seq<Section>
  {
    if groups == [] then []
    else
      PropertySections(ms, groups[..|groups| - 1])
      + match PropertySection(ms, groups[|groups| - 1]) case Some(s) => [s] case None => []
  }

  /** The property sections are exactly those of the groups with keys, in group order. */
  lemma {:induction false} PropertySectionsSpec(ms: seq<Material>, groups: seq<string>)
    ensures var shown := Seqs.Filter(groups, (g: string) => UniqueKeys(ms, g) != []);
            && |PropertySections(ms, groups)| == |shown|
            && forall k :: 0 <= k < |shown| ==> Some(PropertySections(ms, groups)[k]) == PropertySection(ms, shown[k])
  {
    if groups != [] {
      PropertySectionsSpec(ms, groups[..|groups| - 1]);
    }
  }

  function BasicSection(ms: seq<Material>): Section
  {
    Section("基本信息", [
      RenderRow("标准牌号", ms, (m: Material) => Badge(OrElse(m.grade, ""))),
      RenderRow("适用标准", ms, (m: Material) => DashCell(m.standard)),
      RenderRow("产品形态", ms, (m: Material) => DashCell(m.shape)),
      RenderRow("供货状态", ms, (m: Material) => DashCell(m.supplyCondition)),
      RenderRow("加工工艺", ms, (m: Material) => DashCell(m.process)),
      RenderRow("典型应用", ms, (m: Material) => Chips(m.applicationParts)),
      RenderRow("描述", ms, (m: Material) => Plain(m.description))
    ])
  }

  function OtherSection(ms: seq<Material>): Section
  {
    Section("其他特性", [
      RenderRow("耐磨性能", ms, (m: Material) => DashCell(m.wearResistance)),
      RenderRow("耐腐蚀性", ms, (m: Material) => DashCell(m.corrosionResistance))
    ])
  }

  /** The whole table body: basic information, the property groups that have keys,
      and the other characteristics. */
  function ComparisonTable(ms: seq<Material>): seq<Section>
  {
    [BasicSection(ms)] + PropertySections(ms, PropertyGroups) + [OtherSection(ms)]
  }

  /** Every row of every section has `n` cells. */
  predicate Rectangular(sections: seq<Section>, n: nat)
  {
    forall s, r :: 0 <= s < |sections| && 0 <= r < |sections[s].rows| ==> |sections[s].rows[r].cells| == n
  }

  lemma {:induction false} PropertySectionsRectangular(ms: seq<Material>, groups: seq<string>)
    ensures Rectangular(PropertySections(ms, groups), |ms|)
  {
    if groups != [] {
      PropertySectionsRectangular(ms, groups[..|groups| - 1]);
    }
  }

  /** The table opens with the basic information, closes with the other
      characteristics, and every row has exactly one cell per selected material. */
  lemma ComparisonTableShape(ms: seq<Material>)
    ensures ComparisonTable(ms)[0].title == "基本信息"
    ensures ComparisonTable(ms)[|ComparisonTable(ms)| - 1].title == "其他特性"
    ensures Rectangular(ComparisonTable(ms), |ms|)
  {
    var ps := PropertySections(ms, PropertyGroups);
    PropertySectionsRectangular(ms, PropertyGroups);
    assert Rectangular([BasicSection(ms)], |ms|);
    assert Rectangular([OtherSection(ms)], |ms|);
    var t := ComparisonTable(ms);
    forall s, r | 0 <= s < |t| && 0 <= r < |t[s].rows|
      ensures |t[s].rows[r].cells| == |ms|
    {
      if s == 0 {
        assert t[s] == BasicSection(ms);
      } else if s < |t| - 1 {
        assert t[s] == ps[s - 1];
      } else {
        assert t[s] == OtherSection(ms);
      }
    }
  }

  /** What the page shows: a notice when nothing was handed over, otherwise the chart
      and the table. */
  datatype ContrastView = NoData | Comparison(radar: seq<DataPoint>, table: seq<Section>)

  /** `location.state?.materials || []`, then the empty-selection guard. */
  function ContrastPage(state: Option<seq<Material>>): (v: ContrastView)
    ensures v.NoData? <==> state.None? || state.value == []
    ensures v.Comparison? ==> v.radar == RadarSpec(state.value) && v.table == ComparisonTable(state.value)
  {
    var ms := state.GetOr([]);
    if ms == [] then NoData else Comparison(RadarSpec(ms), ComparisonTable(ms))
  }
}

/** Descriptive statistics of one measured field: minimum, maximum and the
    arithmetic mean, the mean taken exactly over the reals. */
module Statistics {
  import opened Readings

  function Sum(vs: seq<int>): int
    decreases |vs|
  {
    if |vs| == 0 then 0 else Sum(vs[..|vs| - 1]) + vs[|vs| - 1]
  }

  /** Python's `min`: defined only on a non-empty list. */
  function Min(vs: seq<int>): (m: int)
    requires |vs| > 0
    ensures m in vs
    ensures forall j :: 0 <= j < |vs| ==> m <= vs[j]
    decreases |vs|
  {
    if |vs| == 1 then vs[0]
    else
      var m := Min(vs[..|vs| - 1]);
      assert forall j :: 0 <= j < |vs| - 1 ==> vs[..|vs| - 1][j] == vs[j];
      if vs[|vs| - 1] < m then vs[|vs| - 1] else m
  }

  /** Python's `max`: defined only on a non-empty list. */
  function Max(vs: seq<int>): (m: int)
    requires |vs| > 0
    ensures m in vs
    ensures forall j :: 0 <= j < |vs| ==> vs[j] <= m
    decreases |vs|
  {
    if |vs| == 1 then vs[0]
    else
      var m := Max(vs[..|vs| - 1]);
      assert forall j :: 0 <= j < |vs| - 1 ==> vs[..|vs| - 1][j] == vs[j];
      if vs[|vs| - 1] > m then vs[|vs| - 1] else m
  }

  /** The handler's `average` helper: the value that, taken once per element,
      adds up to the sum of the list; 0 for an empty list. */
  function Average(vs: seq<int>): (a: real)
    ensures |vs| > 0 ==> a * |vs| as real == Sum(vs) as real
    ensures |vs| == 0 ==> a == 0.0
  {
    if |vs| > 0 then Sum(vs) as real / |vs| as real else 0.0
  }

  /** The `{"min", "max", "average"}` object of one field. */
  datatype StatBlock = StatBlock(min: int, max: int, average: real)

  /** `b` is the summary of `vs`: its minimum and maximum occur in `vs` and
      bound every value, and its average is the mean of `vs`, lying between them. */
  predicate Summarises(b: StatBlock, vs: seq<int>) {
    && b.min in vs
    && b.max in vs
    && (forall j :: 0 <= j < |vs| ==> b.min <= vs[j] <= b.max)
    && b.average == Average(vs)
    && b.min as real <= b.average <= b.max as real
  }

  /** The sum of values that are all at least `lo` and at most `hi` lies between
      `|vs| * lo` and `|vs| * hi`. */
  lemma {:induction false} SumBounds(vs: seq<int>, lo: int, hi: int)
    requires forall j :: 0 <= j < |vs| ==> lo <= vs[j] <= hi
    ensures |vs| * lo <= Sum(vs) <= |vs| * hi
    decreases |vs|
  {
    if |vs| > 0 {
      var p := vs[..|vs| - 1];
      assert forall j :: 0 <= j < |p| ==> p[j] == vs[j];
      SumBounds(p, lo, hi);
      assert |vs| * lo == |p| * lo + lo;
      assert |vs| * hi == |p| * hi + hi;
    }
  }

  /** A mean lies between any lower and upper bound of the values. */
  lemma MeanBetween(s: int, n: int, lo: int, hi: int)
    requires n > 0
    requires n * lo <= s <= n * hi
    ensures lo as real <= s as real / n as real <= hi as real
  {
    var m := s as real / n as real;
    assert m * n as real == s as real;
    assert (n * lo) as real == n as real * lo as real;
    assert (n * hi) as real == n as real * hi as real;
  }

  /** The statistics of one field over a non-empty list of values. */
  function FieldStats(vs: seq<int>): (b: StatBlock)
    requires |vs| > 0
    ensures Summarises(b, vs)
  {
    var lo := Min(vs);
    var hi := Max(vs);
    SumBounds(vs, lo, hi);
    MeanBetween(Sum(vs), |vs|, lo, hi);
    StatBlock(lo, hi, Average(vs))
  }

  /** A single value is its own minimum, maximum and average. */
  lemma SingleValueStats(v: int)
    ensures FieldStats([v]) == StatBlock(v, v, v as real)
  {
  }

  /** Two readings of 10 and 20 summarise to min 10, max 20, average 15.0. */
  lemma TwoValuesExample()
    ensures FieldStats([10, 20]) == StatBlock(10, 20, 15.0)
  {
    assert [10, 20][..1] == [10];
    assert [10][..0] == [];
  }

  /** The four per-field summaries of one sensor. */
  datatype SensorStats = SensorStats(
    temperature: StatBlock,
    windSpeed: StatBlock,
    humidity: StatBlock,
    co2: StatBlock)

  function Block(s: SensorStats, f: Field): StatBlock {
    match f
    case Temperature => s.temperature
    case WindSpeed => s.windSpeed
    case Humidity => s.humidity
    case Co2 => s.co2
  }

  /** The list comprehension `[v[field] for v in values]`. */
  function FieldValues(group: seq<Reading>, f: Field): (vs: seq<int>)
    ensures |vs| == |group|
    ensures forall j :: 0 <= j < |group| ==> vs[j] == FieldValue(group[j], f)
  {
    seq(|group|, j requires 0 <= j < |group| => FieldValue(group[j], f))
  }

  /** Every reading of a group contributes its value to the field's list, and
      every value in the list comes from some reading of the group. */
  lemma FieldValuesMembers(group: seq<Reading>, f: Field)
    ensures forall x :: x in group ==> FieldValue(x, f) in FieldValues(group, f)
    ensures forall v :: v in FieldValues(group, f) ==> exists x :: x in group && FieldValue(x, f) == v
  {
  }

  /** The statistics of one sensor's readings, field by field: each of the
      four blocks summarises that field's values over the group. */
  function StatsFor(group: seq<Reading>): (s: SensorStats)
    requires |group| > 0
    ensures forall f: Field :: Summarises(Block(s, f), FieldValues(group, f))
  {
    SensorStats(
      FieldStats(FieldValues(group, Temperature)),
      FieldStats(FieldValues(group, WindSpeed)),
      FieldStats(FieldValues(group, Humidity)),
      FieldStats(FieldValues(group, Co2)))
  }

  /** A sensor with a single reading gets min == max == average == that reading's value. */
  lemma SingleReadingStats(r: Reading)
    ensures forall f: Field ::
              Block(StatsFor([r]), f) == StatBlock(FieldValue(r, f), FieldValue(r, f), FieldValue(r, f) as real)
  {
  }
}

/** The measurement record produced by a simulated Leeds weather sensor and
    the inclusive value ranges its four fields are drawn from. */
module Readings {

  /** An inclusive integer interval, as passed to `random.randint`. */
  datatype Range = Range(lo: int, hi: int) {
    predicate Contains(v: int) {
      lo <= v <= hi
    }
  }

  const TempRange: Range := Range(5, 18)      // degrees Celsius
  const WindRange: Range := Range(12, 24)     // miles per hour
  const HumidRange: Range := Range(30, 60)    // percent
  const Co2Range: Range := Range(400, 1600)   // parts per million

  /** One observation. Sensor ids are plain integers: the statistics endpoint
      accepts whatever ids its JSON body carries. */
  datatype Reading = Reading(
    sensorId: int,
    temperatureC: int,
    windMph: int,
    humidityPercent: int,
    co2Ppm: int)

  /** The four measured fields, for statements that hold field by field. */
  datatype Field = Temperature | WindSpeed | Humidity | Co2

  function FieldValue(r: Reading, f: Field): int {
    match f
    case Temperature => r.temperatureC
    case WindSpeed => r.windMph
    case Humidity => r.humidityPercent
    case Co2 => r.co2Ppm
  }

  function FieldRange(f: Field): Range {
    match f
    case Temperature => TempRange
    case WindSpeed => WindRange
    case Humidity => HumidRange
    case Co2 => Co2Range
  }

  /** Every field lies inside its declared inclusive range. */
  predicate WithinRanges(r: Reading) {
    forall f: Field :: FieldRange(f).Contains(FieldValue(r, f))
  }

  /** The ranges field by field: temperature 5..18 degrees Celsius, wind
      12..24 mph, humidity 30..60 percent, CO2 400..1600 ppm; each has at
      least one value, so every draw from it is defined. */
  lemma DeclaredRanges()
    ensures FieldRange(Temperature) == Range(5, 18)
    ensures FieldRange(WindSpeed) == Range(12, 24)
    ensures FieldRange(Humidity) == Range(30, 60)
    ensures FieldRange(Co2) == Range(400, 1600)
    ensures forall f: Field :: FieldRange(f).lo <= FieldRange(f).hi
  {
  }

  /** The readings are numbered densely: the one at index i belongs to sensor i + 1. */
  predicate DenselyNumbered(rs: seq<Reading>) {
    forall i :: 0 <= i < |rs| ==> rs[i].sensorId == i + 1
  }

  /** The sensor ids that occur in a collection of readings. */
  function IdSet(rs: seq<Reading>): set<int>
    decreases |rs|
  {
    if |rs| == 0 then {} else IdSet(rs[..|rs| - 1]) + {rs[|rs| - 1].sensorId}
  }

  /** An id is in `IdSet(rs)` exactly when some reading carries it. */
  lemma {:induction false} IdSetMembers(rs: seq<Reading>)
    ensures forall k :: k in IdSet(rs) <==> exists i :: 0 <= i < |rs| && rs[i].sensorId == k
    decreases |rs|
  {
    if |rs| > 0 {
      var p := rs[..|rs| - 1];
      IdSetMembers(p);
      assert forall i :: 0 <= i < |p| ==> p[i] == rs[i];
    }
  }
}

/** The simulated-data endpoint: one reading per sensor, with ids 1..N, each
    field drawn from its inclusive range. */
module Simulator {
  import opened Wrappers
  import opened Readings
  import opened CountParam

  /** `random.randint(lo, hi)`: some integer in the inclusive interval. The
      entropy source is not modelled; any value in range may come back. */
  method RandInt(range: Range) returns (v: int)
    requires range.lo <= range.hi
    ensures range.Contains(v)
  {
    v :| range.lo <= v <= range.hi;
  }

  /** One fresh reading for the sensor `sensorId`. */
  method GenerateReading(sensorId: int) returns (r: Reading)
    ensures r.sensorId == sensorId
    ensures WithinRanges(r)
  {
    var t := RandInt(TempRange);
    var w := RandInt(WindRange);
    var h := RandInt(HumidRange);
    var c := RandInt(Co2Range);
    r := Reading(sensorId, t, w, h, c);
  }

  /** What a simulation of `sensorCount` sensors looks like: one reading per
      sensor (none for a non-positive count, as `range` yields nothing), the
      reading at index i belonging to sensor i + 1, every field in range. */
  predicate IsSimulation(readings: seq<Reading>, sensorCount: int) {
    && |readings| == (if sensorCount < 0 then 0 else sensorCount)
    && DenselyNumbered(readings)
    && forall i :: 0 <= i < |readings| ==> WithinRanges(readings[i])
  }

  method SimulateWeatherSensors(sensorCount: int) returns (readings: seq<Reading>)
    ensures IsSimulation(readings, sensorCount)
  {
    readings := [];
    var i := 0;
    while i < sensorCount
      invariant 0 <= i <= (if sensorCount < 0 then 0 else sensorCount)
      invariant IsSimulation(readings, i)
    {
      var r := GenerateReading(i + 1);
      readings := readings + [r];
      i := i + 1;
    }
  }

  /** Sensor ids of a simulation are exactly 1..N, strictly ascending. */
  lemma SimulationIdsDenseAscending(readings: seq<Reading>, sensorCount: int)
    requires IsSimulation(readings, sensorCount)
    ensures forall i, j :: 0 <= i < j < |readings| ==> readings[i].sensorId < readings[j].sensorId
    ensures forall id :: id in IdSet(readings) <==> 1 <= id <= |readings|
  {
    IdSetMembers(readings);
    forall id | 1 <= id <= |readings|
      ensures id in IdSet(readings)
    {
      assert readings[id - 1].sensorId == id;
    }
  }

  /** The JSON body of a successful simulator response, without the wall-clock
      fields (`timestamp_utc`, `time_ms`). */
  datatype SimulationReport = SimulationReport(city: string, sensorCount: nat, readings: seq<Reading>)

  /** The simulator endpoint: validate `count`, then simulate that many sensors. */
  method LeedsWeatherSimulator(countParam: Option<string>) returns (response: Result<SimulationReport>)
    ensures response.Rejected? <==> ParseCount(countParam).Rejected?
    ensures response.Rejected? ==> response.message == InvalidCountMessage
    ensures response.Ok? ==>
              && response.value.city == "Leeds"
              && response.value.sensorCount == ParseCount(countParam).value
              && response.value.sensorCount >= 1
              && IsSimulation(response.value.readings, response.value.sensorCount)
  {
    var parsed := ParseCount(countParam);
    match parsed
    case Rejected(msg) =>
      response := Rejected(msg);
    case Ok(n) =>
      var readings := SimulateWeatherSensors(n);
      response := Ok(SimulationReport("Leeds", n, readings));
  }
}

/** The per-sensor statistics endpoint: reject an unparsable body or an absent
    or empty `readings` list, otherwise group the readings by sensor and
    summarise every field of every group under the key `Sensor_<id>`. */
module StatsEndpoint {
  import opened Wrappers
  import opened Decimal
  import opened Readings
  import opened Grouping
  import opened Statistics
  import Simulator

  const InvalidJsonMessage: string := "Invalid JSON."
  const NoReadingsMessage: string := "No readings found."

  /** The request body: either not JSON at all, or a JSON object whose
      `readings` key may be missing (or null). */
  datatype StatsRequest = InvalidJson | Body(readings: Option<seq<Reading>>)

  /** One key/value pair of the response object, for the sensor `sensorId`. */
  datatype SensorEntry = SensorEntry(sensorId: int, stats: SensorStats) {
    /** The key under which the entry appears in the response. */
    function Key(): string {
      SensorLabel(sensorId)
    }
  }

  /** The response key of a sensor, `f"Sensor_{sid}"`: the prefix `Sensor_`
      followed by at least one character of the id's numeral. */
  function SensorLabel(id: int): (key: string)
    ensures |key| > 7 && key[..7] == "Sensor_"
  {
    "Sensor_" + IntToString(id)
  }

  /** The id is read back from its key: after `Sensor_` come the digits of a
      non-negative id, or '-' and the digits of the magnitude of a negative one. */
  lemma SensorLabelReadBack(id: int)
    ensures var n := SensorLabel(id)[7..];
            && (id >= 0 ==> AllDigits(n) && Value(n) == id)
            && (id < 0 ==> n[0] == '-' && AllDigits(n[1..]) && Value(n[1..]) == -id)
  {
    assert SensorLabel(id)[7..] == IntToString(id);
    IntToStringReadBack(id);
  }

  /** Different sensors get different labels. */
  lemma SensorLabelInjective(a: int, b: int)
    ensures SensorLabel(a) == SensorLabel(b) ==> a == b
  {
    if SensorLabel(a) == SensorLabel(b) {
      assert IntToString(a) == SensorLabel(a)[7..];
      assert IntToString(b) == SensorLabel(b)[7..];
      IntToStringInjective(a, b);
    }
  }

  /** The response entry of sensor `id`: its key and the statistics of its group. */
  function Entry(rs: seq<Reading>, id: int): SensorEntry
    requires id in IdSet(rs)
  {
    SensorEntry(id, StatsFor(Select(rs, id)))
  }

  /** The entries of the sensors `ids`, in the order of `ids`. */
  function Entries(rs: seq<Reading>, ids: seq<int>): (entries: seq<SensorEntry>)
    requires forall k :: k in ids ==> k in IdSet(rs)
    ensures |entries| == |ids|
    decreases |ids|
  {
    if |ids| == 0 then [] else Entries(rs, ids[..|ids| - 1]) + [Entry(rs, ids[|ids| - 1])]
  }

  /** Entry j of `Entries` belongs to the j-th id. */
  lemma {:induction false} EntriesAt(rs: seq<Reading>, ids: seq<int>, j: int)
    requires forall k :: k in ids ==> k in IdSet(rs)
    requires 0 <= j < |ids|
    ensures Entries(rs, ids)[j] == Entry(rs, ids[j])
    decreases |ids|
  {
    if j < |ids| - 1 {
      var q := ids[..|ids| - 1];
      EntriesAt(rs, q, j);
      assert q[j] == ids[j];
    }
  }

  lemma EntriesSnoc(rs: seq<Reading>, ids: seq<int>, j: int)
    requires forall k :: k in ids ==> k in IdSet(rs)
    requires 0 <= j < |ids|
    ensures ids[j] in IdSet(rs)
    ensures Entries(rs, ids[..j + 1]) == Entries(rs, ids[..j]) + [Entry(rs, ids[j])]
  {
    assert ids[j] in ids;
    var s := ids[..j + 1];
    assert forall k :: k in s ==> k in ids;
    assert s[..|s| - 1] == ids[..j];
    assert s[|s| - 1] == ids[j];
  }

  /** The response object: one entry per sensor, in order of first occurrence. */
  function Aggregate(rs: seq<Reading>): (entries: seq<SensorEntry>)
    ensures |entries| == |IdSet(rs)|
  {
    DistinctIdsCount(rs);
    Entries(rs, DistinctIds(rs))
  }

  /** The per-sensor part of the handler: group in one pass, then summarise
      each group in key order. */
  method SummariseReadings(rs: seq<Reading>) returns (entries: seq<SensorEntry>)
    ensures entries == Aggregate(rs)
  {
    var ids, groups := GroupBySensor(rs);
    entries := [];
    var j := 0;
    while j < |ids|
      invariant 0 <= j <= |ids|
      invariant entries == Entries(rs, ids[..j])
    {
      var sid := ids[j];
      EntriesSnoc(rs, ids, j);
      var values := groups[sid];
      entries := entries + [SensorEntry(sid, StatsFor(values))];
      j := j + 1;
    }
    assert ids[..|ids|] == ids;
  }

  /** The statistics handler, after JSON decoding. */
  method LeedsWeatherStats(req: StatsRequest) returns (response: Result<seq<SensorEntry>>)
    ensures req.InvalidJson? ==> response == Rejected(InvalidJsonMessage)
    ensures req.Body? && (req.readings.None? || req.readings.value == []) ==>
              response == Rejected(NoReadingsMessage)
    ensures req.Body? && req.readings.Some? && req.readings.value != [] ==>
              response == Ok(Aggregate(req.readings.value))
  {
    if req.InvalidJson? {
      return Rejected(InvalidJsonMessage);
    }
    if req.readings.None? || req.readings.value == [] {
      return Rejected(NoReadingsMessage);
    }
    var entries := SummariseReadings(req.readings.value);
    response := Ok(entries);
  }

  /** Entry j of the response belongs to the j-th distinct sensor id. */
  lemma AggregateIds(rs: seq<Reading>)
    ensures |Aggregate(rs)| == |DistinctIds(rs)|
    ensures forall j :: 0 <= j < |Aggregate(rs)| ==> Aggregate(rs)[j].sensorId == DistinctIds(rs)[j]
  {
    forall j | 0 <= j < |Aggregate(rs)|
      ensures Aggregate(rs)[j].sensorId == DistinctIds(rs)[j]
    {
      EntriesAt(rs, DistinctIds(rs), j);
    }
  }

  /** The response has exactly one entry per distinct sensor id of the input,
      and no key appears twice. */
  lemma AggregateOneEntryPerSensor(rs: seq<Reading>)
    ensures forall id :: id in IdSet(rs) <==>
              exists j :: 0 <= j < |Aggregate(rs)| && Aggregate(rs)[j].Key() == SensorLabel(id)
    ensures forall a, b :: 0 <= a < b < |Aggregate(rs)| ==> Aggregate(rs)[a].Key() != Aggregate(rs)[b].Key()
  {
    var ids := DistinctIds(rs);
    var entries := Aggregate(rs);
    AggregateIds(rs);
    forall id | id in IdSet(rs)
      ensures exists j :: 0 <= j < |entries| && entries[j].Key() == SensorLabel(id)
    {
      var j :| 0 <= j < |ids| && ids[j] == id;
      assert entries[j].Key() == SensorLabel(id);
    }
    forall id | exists j :: 0 <= j < |entries| && entries[j].Key() == SensorLabel(id)
      ensures id in IdSet(rs)
    {
      var j :| 0 <= j < |entries| && entries[j].Key() == SensorLabel(id);
      SensorLabelInjective(ids[j], id);
      assert ids[j] in ids;
    }
    forall a, b | 0 <= a < b < |entries|
      ensures entries[a].Key() != entries[b].Key()
    {
      SensorLabelInjective(ids[a], ids[b]);
    }
  }

  /** Each entry summarises exactly the readings carrying its sensor id: its
      minimum and maximum are values some such reading has, every such reading
      lies between them, and the average lies between them too. */
  lemma AggregateStatsBounds(rs: seq<Reading>, j: int, f: Field)
    requires 0 <= j < |Aggregate(rs)|
    ensures var e := Aggregate(rs)[j];
            var b := Block(e.stats, f);
            && e.sensorId == DistinctIds(rs)[j]
            && (exists i :: 0 <= i < |rs| && rs[i].sensorId == e.sensorId && FieldValue(rs[i], f) == b.min)
            && (exists i :: 0 <= i < |rs| && rs[i].sensorId == e.sensorId && FieldValue(rs[i], f) == b.max)
            && (forall i :: 0 <= i < |rs| && rs[i].sensorId == e.sensorId ==> b.min <= FieldValue(rs[i], f) <= b.max)
            && b.min as real <= b.average <= b.max as real
  {
    var ids := DistinctIds(rs);
    assert ids[j] in IdSet(rs);
    EntriesAt(rs, ids, j);
    EntrySummarisesSensor(rs, ids[j], f);
  }

  /** The entry of sensor `id` summarises field `f` over exactly that sensor's readings. */
  lemma EntrySummarisesSensor(rs: seq<Reading>, id: int, f: Field)
    requires id in IdSet(rs)
    ensures var b := Block(Entry(rs, id).stats, f);
            && (exists i :: 0 <= i < |rs| && rs[i].sensorId == id && FieldValue(rs[i], f) == b.min)
            && (exists i :: 0 <= i < |rs| && rs[i].sensorId == id && FieldValue(rs[i], f) == b.max)
            && (forall i :: 0 <= i < |rs| && rs[i].sensorId == id ==> b.min <= FieldValue(rs[i], f) <= b.max)
            && b.min as real <= b.average <= b.max as real
  {
    var g := Select(rs, id);
    var vs := FieldValues(g, f);
    var b := Block(StatsFor(g), f);
    assert Summarises(b, vs);
    FieldValuesMembers(g, f);
    SelectMembers(rs, id);
    var xmin :| xmin in g && FieldValue(xmin, f) == b.min;
    var imin :| 0 <= imin < |rs| && rs[imin] == xmin;
    var xmax :| xmax in g && FieldValue(xmax, f) == b.max;
    var imax :| 0 <= imax < |rs| && rs[imax] == xmax;
    forall i | 0 <= i < |rs| && rs[i].sensorId == id
      ensures b.min <= FieldValue(rs[i], f) <= b.max
    {
      assert rs[i] in g;
    }
  }

  /** Statistics of a fresh simulation of n sensors: n entries, the j-th for
      sensor j + 1, each field's min, max and average all equal to that
      sensor's one reading. */
  lemma SimulationStats(rs: seq<Reading>, n: int)
    requires Simulator.IsSimulation(rs, n)
    ensures |Aggregate(rs)| == |rs|
    ensures forall j :: 0 <= j < |rs| ==> Aggregate(rs)[j].sensorId == j + 1
    ensures forall j, f: Field :: 0 <= j < |rs| ==>
              Block(Aggregate(rs)[j].stats, f) ==
                StatBlock(FieldValue(rs[j], f), FieldValue(rs[j], f), FieldValue(rs[j], f) as real)
  {
    DenseDistinctIds(rs);
    forall j | 0 <= j < |rs|
      ensures Aggregate(rs)[j].sensorId == j + 1
    {
      DenseEntry(rs, j);
    }
    forall j, f: Field | 0 <= j < |rs|
      ensures Block(Aggregate(rs)[j].stats, f) ==
                StatBlock(FieldValue(rs[j], f), FieldValue(rs[j], f), FieldValue(rs[j], f) as real)
    {
      DenseEntry(rs, j);
      SingleReadingStats(rs[j]);
    }
  }

  /** With dense numbering, entry j is sensor j + 1's, summarising its one reading. */
  lemma DenseEntry(rs: seq<Reading>, j: int)
    requires DenselyNumbered(rs)
    requires 0 <= j < |rs|
    ensures |Aggregate(rs)| == |rs|
    ensures Aggregate(rs)[j] == SensorEntry(j + 1, StatsFor([rs[j]]))
  {
    DenseDistinctIds(rs);
    EntriesAt(rs, DistinctIds(rs), j);
    DenseSelect(rs, j + 1);
  }

  /** With dense numbering the ids, in first-occurrence order, are 1..n. */
  lemma {:induction false} DenseDistinctIds(rs: seq<Reading>)
    requires DenselyNumbered(rs)
    ensures |DistinctIds(rs)| == |rs|
    ensures forall j :: 0 <= j < |rs| ==> DistinctIds(rs)[j] == j + 1
    decreases |rs|
  {
    if |rs| > 0 {
      var p := rs[..|rs| - 1];
      var r := rs[|rs| - 1];
      assert rs == p + [r];
      DenseDistinctIds(p);
      DistinctIdsSnoc(p, r);
      assert r.sensorId !in IdSet(p);
    }
  }

  /** With dense numbering each sensor's group is its single reading. */
  lemma {:induction false} DenseSelect(rs: seq<Reading>, k: int)
    requires DenselyNumbered(rs)
    ensures Select(rs, k) == if 1 <= k <= |rs| then [rs[k - 1]] else []
    decreases |rs|
  {
    if |rs| > 0 {
      var p := rs[..|rs| - 1];
      var r := rs[|rs| - 1];
      assert rs == p + [r];
      DenseSelect(p, k);
      SelectSnoc(p, r, k);
    }
  }
}

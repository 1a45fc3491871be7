/** Grouping readings by sensor id, as the statistics endpoint does with a
    dictionary filled by `setdefault(sid, []).append(r)`: one group per
    distinct id, groups keyed in order of first occurrence, each group holding
    that sensor's readings in input order. */
module Grouping {
  import opened Sequences
  import opened Readings

  /** Reading ids of a collection grow by exactly the id of an appended reading. */
  lemma IdSetSnoc(rs: seq<Reading>, r: Reading)
    ensures IdSet(rs + [r]) == IdSet(rs) + {r.sensorId}
  {
  }

  /** The readings of sensor `id`, in input order: the reference meaning of one group. */
  function Select(rs: seq<Reading>, id: int): (g: seq<Reading>)
    ensures |g| > 0 <==> id in IdSet(rs)
    decreases |rs|
  {
    if |rs| == 0 then []
    else
      var p := rs[..|rs| - 1];
      var r := rs[|rs| - 1];
      Select(p, id) + (if r.sensorId == id then [r] else [])
  }

  lemma SelectSnoc(rs: seq<Reading>, r: Reading, id: int)
    ensures Select(rs + [r], id) == Select(rs, id) + (if r.sensorId == id then [r] else [])
  {
  }

  /** A group holds exactly the input's readings of its id. */
  lemma {:induction false} SelectMembers(rs: seq<Reading>, id: int)
    ensures forall x :: x in Select(rs, id) <==> x in rs && x.sensorId == id
    decreases |rs|
  {
    if |rs| > 0 {
      var p := rs[..|rs| - 1];
      assert rs == p + [rs[|rs| - 1]];
      SelectMembers(p, id);
    }
  }

  /** No id appears twice. */
  predicate Distinct(ids: seq<int>) {
    forall a, b :: 0 <= a < b < |ids| ==> ids[a] != ids[b]
  }

  /** The distinct sensor ids of `rs`, each exactly once, in order of first occurrence. */
  function DistinctIds(rs: seq<Reading>): (ids: seq<int>)
    ensures forall k :: k in ids <==> k in IdSet(rs)
    ensures Distinct(ids)
    decreases |rs|
  {
    if |rs| == 0 then []
    else
      var p := rs[..|rs| - 1];
      var r := rs[|rs| - 1];
      var d := DistinctIds(p);
      if r.sensorId in d then d else d + [r.sensorId]
  }

  lemma DistinctIdsSnoc(rs: seq<Reading>, r: Reading)
    ensures DistinctIds(rs + [r]) ==
              if r.sensorId in DistinctIds(rs) then DistinctIds(rs) else DistinctIds(rs) + [r.sensorId]
  {
  }

  /** `ids` and `groups` are exactly the grouping of `rs`. */
  predicate GroupedAs(rs: seq<Reading>, ids: seq<int>, groups: map<int, seq<Reading>>) {
    && ids == DistinctIds(rs)
    && groups.Keys == IdSet(rs)
    && forall k :: k in groups ==> groups[k] == Select(rs, k)
  }

  /** One step of the loop: appending a reading to its (possibly new) group
      keeps the grouping exact. */
  lemma GroupStep(rs: seq<Reading>, r: Reading, ids: seq<int>, groups: map<int, seq<Reading>>)
    requires GroupedAs(rs, ids, groups)
    ensures var ids' := if r.sensorId in groups then ids else ids + [r.sensorId];
            var prev := if r.sensorId in groups then groups[r.sensorId] else [];
            GroupedAs(rs + [r], ids', groups[r.sensorId := prev + [r]])
  {
    var id := r.sensorId;
    var ids' := if id in groups then ids else ids + [id];
    var prev := if id in groups then groups[id] else [];
    var g' := groups[id := prev + [r]];
    IdSetSnoc(rs, r);
    DistinctIdsSnoc(rs, r);
    assert id in groups <==> id in DistinctIds(rs);
    assert ids' == DistinctIds(rs + [r]);
    assert g'.Keys == IdSet(rs + [r]);
    GroupsStep(rs, r, groups);
  }

  /** Appending a reading to its own group keeps every group exact. */
  lemma GroupsStep(rs: seq<Reading>, r: Reading, groups: map<int, seq<Reading>>)
    requires groups.Keys == IdSet(rs)
    requires forall k :: k in groups ==> groups[k] == Select(rs, k)
    ensures var prev := if r.sensorId in groups then groups[r.sensorId] else [];
            var g' := groups[r.sensorId := prev + [r]];
            forall k :: k in g' ==> g'[k] == Select(rs + [r], k)
  {
  }

  /** The single pass of the statistics endpoint: walk the readings once,
      opening a group the first time an id is seen and appending to it. */
  method GroupBySensor(rs: seq<Reading>) returns (ids: seq<int>, groups: map<int, seq<Reading>>)
    ensures ids == DistinctIds(rs)
    ensures groups.Keys == IdSet(rs)
    ensures forall k :: k in groups ==> groups[k] == Select(rs, k)
  {
    ids := [];
    groups := map[];
    ghost var seen: seq<Reading> := [];
    var i := 0;
    while i < |rs|
      invariant 0 <= i <= |rs|
      invariant seen == rs[..i]
      invariant GroupedAs(seen, ids, groups)
    {
      var r := rs[i];
      assert rs[..i + 1] == rs[..i] + [r];
      GroupStep(seen, r, ids, groups);
      var current := if r.sensorId in groups then groups[r.sensorId] else [];
      if r.sensorId !in groups {
        ids := ids + [r.sensorId];
      }
      groups := groups[r.sensorId := current + [r]];
      seen := seen + [r];
      i := i + 1;
    }
    assert seen == rs;
  }

  /** Every reading lands in exactly one group: the one keyed by its own id. */
  lemma {:induction false} ReadingInItsOwnGroup(rs: seq<Reading>, i: int)
    requires 0 <= i < |rs|
    ensures rs[i].sensorId in DistinctIds(rs)
    ensures rs[i] in Select(rs, rs[i].sensorId)
    ensures forall k :: k != rs[i].sensorId ==> rs[i] !in Select(rs, k)
    decreases |rs|
  {
    var p := rs[..|rs| - 1];
    var r := rs[|rs| - 1];
    assert rs == p + [r];
    SelectSnoc(p, r, rs[i].sensorId);
    if i < |rs| - 1 {
      assert rs[i] == p[i];
      ReadingInItsOwnGroup(p, i);
    }
    forall k | k != rs[i].sensorId
      ensures rs[i] !in Select(rs, k)
    {
      SelectMembers(rs, k);
    }
  }

  /** The groups of `ids`, laid end to end in the order of `ids`. */
  function Concat(rs: seq<Reading>, ids: seq<int>): seq<Reading>
    decreases |ids|
  {
    if |ids| == 0 then [] else Concat(rs, ids[..|ids| - 1]) + Select(rs, ids[|ids| - 1])
  }

  /** Sum of the sizes of the groups of `ids`. */
  function GroupSizes(rs: seq<Reading>, ids: seq<int>): nat
    decreases |ids|
  {
    if |ids| == 0 then 0 else GroupSizes(rs, ids[..|ids| - 1]) + |Select(rs, ids[|ids| - 1])|
  }

  lemma ConcatLast(rs: seq<Reading>, ids: seq<int>)
    requires |ids| > 0
    ensures multiset(Concat(rs, ids)) ==
              multiset(Concat(rs, ids[..|ids| - 1])) + multiset(Select(rs, ids[|ids| - 1]))
  {
  }

  /** The multiset of a group grows by `r` exactly when `r` belongs to it. */
  lemma SelectSnocMultiset(rs: seq<Reading>, r: Reading, id: int)
    ensures multiset(Select(rs + [r], id)) ==
              multiset(Select(rs, id)) + (if r.sensorId == id then multiset{r} else multiset{})
  {
  }

  /** Splitting a distinct list into its front and its last element. */
  lemma DistinctFrontLast(ids: seq<int>)
    requires Distinct(ids) && |ids| > 0
    ensures Distinct(ids[..|ids| - 1])
    ensures ids[|ids| - 1] !in ids[..|ids| - 1]
    ensures forall x :: x in ids <==> x in ids[..|ids| - 1] || x == ids[|ids| - 1]
  {
  }

  lemma {:induction false} ConcatSnoc(rs: seq<Reading>, r: Reading, ids: seq<int>)
    requires Distinct(ids)
    ensures multiset(Concat(rs + [r], ids)) ==
              multiset(Concat(rs, ids)) + (if r.sensorId in ids then multiset{r} else multiset{})
    decreases |ids|
  {
    if |ids| > 0 {
      var q := ids[..|ids| - 1];
      var k := ids[|ids| - 1];
      DistinctFrontLast(ids);
      ConcatSnoc(rs, r, q);
      SelectSnocMultiset(rs, r, k);
      ConcatLast(rs, ids);
      ConcatLast(rs + [r], ids);
    }
  }

  /** Grouping loses and duplicates nothing: laid end to end in key order,
      the groups are a permutation of the input. */
  lemma {:induction false} GroupingPartitions(rs: seq<Reading>)
    ensures multiset(Concat(rs, DistinctIds(rs))) == multiset(rs)
    decreases |rs|
  {
    if |rs| > 0 {
      GroupingPartitions(rs[..|rs| - 1]);
      PartitionLast(rs);
    }
  }

  /** `PartitionStep` for a sequence split into its front and its last reading. */
  lemma PartitionLast(rs: seq<Reading>)
    requires |rs| > 0
    requires multiset(Concat(rs[..|rs| - 1], DistinctIds(rs[..|rs| - 1]))) == multiset(rs[..|rs| - 1])
    ensures multiset(Concat(rs, DistinctIds(rs))) == multiset(rs)
  {
    var p := rs[..|rs| - 1];
    var r := rs[|rs| - 1];
    SplitLast(rs);
    PartitionStep(p, r);
  }

  /** Appending one reading keeps the groups a permutation of the input. */
  lemma PartitionStep(p: seq<Reading>, r: Reading)
    requires multiset(Concat(p, DistinctIds(p))) == multiset(p)
    ensures multiset(Concat(p + [r], DistinctIds(p + [r]))) == multiset(p + [r])
  {
    DistinctIdsSnoc(p, r);
    var d := DistinctIds(p);
    ConcatSnoc(p, r, d);
    if r.sensorId !in d {
      NewGroupStep(p, r);
    }
  }

  /** A reading with an id not seen before opens a group holding just itself. */
  lemma NewGroupStep(p: seq<Reading>, r: Reading)
    requires r.sensorId !in DistinctIds(p)
    ensures multiset(Concat(p + [r], DistinctIds(p) + [r.sensorId])) ==
              multiset(Concat(p + [r], DistinctIds(p))) + multiset{r}
  {
  }

  lemma {:induction false} ConcatLength(rs: seq<Reading>, ids: seq<int>)
    ensures |Concat(rs, ids)| == GroupSizes(rs, ids)
    decreases |ids|
  {
    if |ids| > 0 {
      ConcatLength(rs, ids[..|ids| - 1]);
    }
  }

  /** The group sizes add up to the number of readings. */
  lemma GroupSizesSum(rs: seq<Reading>)
    ensures GroupSizes(rs, DistinctIds(rs)) == |rs|
  {
    GroupingPartitions(rs);
    ConcatLength(rs, DistinctIds(rs));
    assert |multiset(Concat(rs, DistinctIds(rs)))| == |multiset(rs)|;
  }

  /** There are as many keys as distinct sensor ids. */
  lemma {:induction false} DistinctIdsCount(rs: seq<Reading>)
    ensures |DistinctIds(rs)| == |IdSet(rs)|
    decreases |rs|
  {
    if |rs| > 0 {
      var p := rs[..|rs| - 1];
      var r := rs[|rs| - 1];
      var d := DistinctIds(p);
      DistinctIdsCount(p);
      if r.sensorId in IdSet(p) {
        assert r.sensorId in d;
        assert IdSet(rs) == IdSet(p);
      } else {
        assert r.sensorId !in d;
        assert DistinctIds(rs) == d + [r.sensorId];
        assert IdSet(rs) == IdSet(p) + {r.sensorId};
      }
    }
  }

  /** Keys come in order of first occurrence: wherever a later key occurs in
      the input, an earlier key has already occurred before it. */
  lemma {:induction false} DistinctIdsFirstOccurrenceOrder(rs: seq<Reading>, a: int, b: int, i: int)
    requires 0 <= a < b < |DistinctIds(rs)|
    requires 0 <= i < |rs| && rs[i].sensorId == DistinctIds(rs)[b]
    ensures exists h :: 0 <= h < i && rs[h].sensorId == DistinctIds(rs)[a]
    decreases |rs|
  {
    var p := rs[..|rs| - 1];
    var r := rs[|rs| - 1];
    assert rs == p + [r];
    DistinctIdsSnoc(p, r);
    var d := DistinctIds(p);
    var D := DistinctIds(rs);
    assert a < |d|;
    assert D[a] == d[a];
    if i < |rs| - 1 {
      assert rs[i] == p[i];
      IdSetMembers(p);
      assert p[i].sensorId in IdSet(p);
      assert b < |d|;
      DistinctIdsFirstOccurrenceOrder(p, a, b, i);
      var h :| 0 <= h < i && p[h].sensorId == d[a];
      assert rs[h] == p[h];
    } else {
      assert d[a] in IdSet(p);
      IdSetMembers(p);
      var h :| 0 <= h < |p| && p[h].sensorId == d[a];
      assert rs[h] == p[h];
    }
  }
}

/**
 * `groupPoints` (datasource.ts): the `/query` response, a list of series
 * `{target, datapoints: [[value, timestamp], ...]}`, regrouped into one
 * dictionary per timestamp that maps each target to its value. Values are
 * opaque; timestamps are integers (the source uses them as object keys).
 */
module GroupPoints {

  /** One `[value, timestamp]` pair of a series. */
  datatype Point<V> = Point(value: V, timestamp: int)

  /** One entry of the response's `data` list. */
  datatype Series<V> = Series(target: string, datapoints: seq<Point<V>>)

  /** A datapoint together with the target of its series. */
  datatype Sample<V> = Sample(timestamp: int, target: string, value: V)

  /** timestamp -> (target -> value) */
  type Grouped<V> = map<int, map<string, V>>

  /** The datapoints of one series, in order. */
  function SeriesSamples<V>(s: Series<V>): (ss: seq<Sample<V>>)
    ensures |ss| == |s.datapoints|
    ensures forall j :: 0 <= j < |ss| ==>
              ss[j] == Sample(s.datapoints[j].timestamp, s.target, s.datapoints[j].value)
  {
    seq(|s.datapoints|, j requires 0 <= j < |s.datapoints| =>
      Sample(s.datapoints[j].timestamp, s.target, s.datapoints[j].value))
  }

  /** Every datapoint in the order the loops visit them: series by series, then datapoint by datapoint. */
  function Samples<V>(data: seq<Series<V>>): seq<Sample<V>>
  {
    if data == [] then [] else Samples(data[..|data| - 1]) + SeriesSamples(data[|data| - 1])
  }

  /** One step of the loop: add a value to its timestamp's group, opening the group if needed. */
  function Insert<V>(g: Grouped<V>, s: Sample<V>): Grouped<V>
  {
    if s.timestamp in g then g[s.timestamp := g[s.timestamp][s.target := s.value]]
    else g[s.timestamp := map[s.target := s.value]]
  }

  /** The result of the loops after visiting `ss`. */
  function Group<V>(ss: seq<Sample<V>>): Grouped<V>
  {
    if ss == [] then map[] else Insert(Group(ss[..|ss| - 1]), ss[|ss| - 1])
  }

  /** The timestamps that occur in some datapoint. */
  ghost function Timestamps<V>(ss: seq<Sample<V>>): set<int>
  {
    set i | 0 <= i < |ss| :: ss[i].timestamp
  }

  /** The targets that have a datapoint at timestamp `t`. */
  ghost function TargetsAt<V>(ss: seq<Sample<V>>, t: int): set<string>
  {
    set i | 0 <= i < |ss| && ss[i].timestamp == t :: ss[i].target
  }

  /** No later datapoint has the same timestamp and target as datapoint `i`. */
  ghost predicate LastFor<V>(ss: seq<Sample<V>>, i: int)
    requires 0 <= i < |ss|
  {
    forall j :: i < j < |ss| ==> ss[j].timestamp != ss[i].timestamp || ss[j].target != ss[i].target
  }

  /** The groups are exactly the timestamps of the datapoints. */
  lemma {:induction false} GroupKeys<V>(ss: seq<Sample<V>>)
    ensures Group(ss).Keys == Timestamps(ss)
  {
    if ss != [] {
      var init := ss[..|ss| - 1];
      GroupKeys(init);
      assert Timestamps(ss) == Timestamps(init) + {ss[|ss| - 1].timestamp} by {
        forall t | t in Timestamps(ss) ensures t in Timestamps(init) + {ss[|ss| - 1].timestamp} {
          var i :| 0 <= i < |ss| && ss[i].timestamp == t;
          if i < |ss| - 1 {
            assert init[i] == ss[i];
          }
        }
        forall t | t in Timestamps(init) ensures t in Timestamps(ss) {
          var i :| 0 <= i < |init| && init[i].timestamp == t;
          assert ss[i] == init[i];
        }
      }
    }
  }

  /** Each group holds exactly the targets with a datapoint at its timestamp. */
  lemma {:induction false} GroupTargets<V>(ss: seq<Sample<V>>, t: int)
    ensures t in Group(ss) ==> Group(ss)[t].Keys == TargetsAt(ss, t)
    ensures t !in Group(ss) ==> TargetsAt(ss, t) == {}
  {
    if ss != [] {
      var init, last := ss[..|ss| - 1], ss[|ss| - 1];
      GroupTargets(init, t);
      var extra := if last.timestamp == t then {last.target} else {};
      assert TargetsAt(ss, t) == TargetsAt(init, t) + extra by {
        forall n | n in TargetsAt(ss, t) ensures n in TargetsAt(init, t) + extra {
          var i :| 0 <= i < |ss| && ss[i].timestamp == t && ss[i].target == n;
          if i < |ss| - 1 {
            assert init[i] == ss[i];
          }
        }
        forall n | n in TargetsAt(init, t) ensures n in TargetsAt(ss, t) {
          var i :| 0 <= i < |init| && init[i].timestamp == t && init[i].target == n;
          assert ss[i] == init[i];
        }
        if last.timestamp == t {
          assert ss[|ss| - 1] == last;
        }
      }
    }
  }

  /** When a timestamp and target occur more than once, the value of the last occurrence is kept. */
  lemma {:induction false} GroupLastWins<V>(ss: seq<Sample<V>>, i: int)
    requires 0 <= i < |ss|
    requires LastFor(ss, i)
    ensures ss[i].timestamp in Group(ss)
    ensures ss[i].target in Group(ss)[ss[i].timestamp]
    ensures Group(ss)[ss[i].timestamp][ss[i].target] == ss[i].value
  {
    var init := ss[..|ss| - 1];
    if i < |ss| - 1 {
      assert LastFor(init, i) by {
        forall j | i < j < |init| ensures init[j].timestamp != init[i].timestamp || init[j].target != init[i].target {
          assert init[j] == ss[j] && init[i] == ss[i];
        }
      }
      GroupLastWins(init, i);
      assert init[i] == ss[i];
    }
  }

  /** A later datapoint never removes a group or a target from a group. */
  lemma {:induction false} GroupGrows<V>(ss: seq<Sample<V>>, k: nat)
    requires k <= |ss|
    ensures Group(ss[..k]).Keys <= Group(ss).Keys
    ensures forall t :: t in Group(ss[..k]) ==> Group(ss[..k])[t].Keys <= Group(ss)[t].Keys
  {
    if k < |ss| {
      var init := ss[..|ss| - 1];
      assert init[..k] == ss[..k];
      GroupGrows(init, k);
    } else {
      assert ss[..k] == ss;
    }
  }

  lemma GroupSnoc<V>(ss: seq<Sample<V>>, s: Sample<V>)
    ensures Group(ss + [s]) == Insert(Group(ss), s)
  {
    assert (ss + [s])[..|ss|] == ss;
  }

  /** Visiting one more datapoint of the current series is one more `Insert`. */
  lemma GroupStep<V>(done: seq<Sample<V>>, visited: seq<Sample<V>>, j: nat)
    requires j < |visited|
    ensures Group(done + visited[..j + 1]) == Insert(Group(done + visited[..j]), visited[j])
  {
    assert done + visited[..j + 1] == done + visited[..j] + [visited[j]];
    GroupSnoc(done + visited[..j], visited[j]);
  }

  lemma SamplesSnoc<V>(data: seq<Series<V>>, i: nat)
    requires i < |data|
    ensures Samples(data[..i + 1]) == Samples(data[..i]) + SeriesSamples(data[i])
  {
    assert data[..i + 1][..i] == data[..i];
  }

  /** The three properties of the grouping, together. */
  lemma GroupProperties<V>(ss: seq<Sample<V>>)
    ensures Group(ss).Keys == Timestamps(ss)
    ensures forall t :: t in Group(ss) ==> Group(ss)[t].Keys == TargetsAt(ss, t)
    ensures forall i :: 0 <= i < |ss| && LastFor(ss, i) ==>
              ss[i].timestamp in Group(ss) && ss[i].target in Group(ss)[ss[i].timestamp]
              && Group(ss)[ss[i].timestamp][ss[i].target] == ss[i].value
  {
    GroupKeys(ss);
    forall t | t in Group(ss)
      ensures Group(ss)[t].Keys == TargetsAt(ss, t)
    {
      GroupTargets(ss, t);
    }
    forall i | 0 <= i < |ss| && LastFor(ss, i)
      ensures ss[i].timestamp in Group(ss) && ss[i].target in Group(ss)[ss[i].timestamp]
              && Group(ss)[ss[i].timestamp][ss[i].target] == ss[i].value
    {
      GroupLastWins(ss, i);
    }
  }

  /**
   * `groupPoints`: one group per timestamp that occurs in the response; in
   * each, exactly the targets with a datapoint at that timestamp, each with
   * the value of its last datapoint there.
   */
  method GroupPointsOf<V>(data: seq<Series<V>>) returns (grouped: Grouped<V>)
    ensures grouped == Group(Samples(data))
    ensures grouped.Keys == Timestamps(Samples(data))
    ensures forall t :: t in grouped ==> grouped[t].Keys == TargetsAt(Samples(data), t)
    ensures forall i :: 0 <= i < |Samples(data)| && LastFor(Samples(data), i) ==>
              var s := Samples(data)[i];
              s.timestamp in grouped && s.target in grouped[s.timestamp] && grouped[s.timestamp][s.target] == s.value
  {
    grouped := map[];
    var i := 0;
    while i < |data|
      invariant 0 <= i <= |data|
      invariant grouped == Group(Samples(data[..i]))
    {
      var entry := data[i];
      ghost var done := Samples(data[..i]);
      ghost var visited := SeriesSamples(entry);
      var j := 0;
      assert done + visited[..0] == done;
      while j < |entry.datapoints|
        invariant 0 <= j <= |entry.datapoints|
        invariant grouped == Group(done + visited[..j])
      {
        var val, timestamp := entry.datapoints[j].value, entry.datapoints[j].timestamp;
        GroupStep(done, visited, j);
        if timestamp in grouped {
          grouped := grouped[timestamp := grouped[timestamp][entry.target := val]];
        } else {
          grouped := grouped[timestamp := map[entry.target := val]];
        }
        j := j + 1;
      }
      SamplesSnoc(data, i);
      assert visited[..j] == visited;
      i := i + 1;
    }
    assert data[..i] == data;
    GroupProperties(Samples(data));
  }
}

/**
 * The values `query` and its helpers compute from the panel's targets and
 * the configuration (datasource.ts): the backend record of each target
 * (`buildQueryParameters`), the hide filter, the element list the metadata
 * request is built from (`buildMetadataParameters`), the selected metadata
 * columns, and which of the three branches `query` takes.
 */
module QueryParameters {
  import opened Wrappers
  import opened Types
  import opened Templates

  /** `target.queryType ? target.queryType : "Element List"` */
  function QueryTypeOrDefault(queryType: Option<string>): (r: string)
    ensures r != ""
    ensures Truthy(queryType) ==> r == queryType.value
    ensures !Truthy(queryType) ==> r == "Element List"
  {
    if Truthy(queryType) then queryType.value else "Element List"
  }

  /** The backend record `buildQueryParameters` makes of one target. */
  function BuildTarget(t: RequestTarget, excludedFlags: bv32, excludeNormalFlags: bool): BackendTarget
  {
    BackendTarget(
      FixTemplates(Some(t)),
      t.RefId(),
      t.Hide(),
      excludedFlags,
      excludeNormalFlags,
      BackendOptions(excludedFlags, excludeNormalFlags),
      QueryTypeOrDefault(t.QueryType()),
      t.Elements())
  }

  /**
   * `options.targets.map(...)`: one record per target, in order; each keeps
   * the target's refId, hide and elements, carries the target string of
   * `fixTemplates`, a query type that is never empty, and the same flag
   * options at top level and in `queryOptions`.
   */
  function BuildTargets(ts: seq<RequestTarget>, excludedFlags: bv32, excludeNormalFlags: bool): (bs: seq<BackendTarget>)
    ensures |bs| == |ts|
    ensures forall i :: 0 <= i < |ts| ==>
              && bs[i].refId == ts[i].RefId()
              && bs[i].hide == ts[i].Hide()
              && bs[i].elements == ts[i].Elements()
              && bs[i].target == FixTemplates(Some(ts[i]))
              && bs[i].queryType == QueryTypeOrDefault(ts[i].QueryType())
    ensures forall i :: 0 <= i < |ts| ==>
              && bs[i].excludedFlags == bs[i].queryOptions.excludedFlags == excludedFlags
              && bs[i].excludeNormalFlags == bs[i].queryOptions.excludeNormalFlags == excludeNormalFlags
  {
    seq(|ts|, i requires 0 <= i < |ts| => BuildTarget(ts[i], excludedFlags, excludeNormalFlags))
  }

  /** The array `options.targets` holds once the records have replaced the panel queries. */
  function AsTargets(bs: seq<BackendTarget>): (ts: seq<RequestTarget>)
    ensures |ts| == |bs|
    ensures forall i :: 0 <= i < |bs| ==> ts[i] == Backend(bs[i])
  {
    seq(|bs|, i requires 0 <= i < |bs| => Backend(bs[i]))
  }

  /** Building a record from a record already built gives it back unchanged. */
  lemma BuildTargetAgain(t: RequestTarget, excludedFlags: bv32, excludeNormalFlags: bool)
    ensures var b := BuildTarget(t, excludedFlags, excludeNormalFlags);
            BuildTarget(Backend(b), excludedFlags, excludeNormalFlags) == b
  {
    var b := BuildTarget(t, excludedFlags, excludeNormalFlags);
    assert Separator(Some(b.queryType)) == Separator(t.QueryType());
  }

  /**
   * `buildQueryParameters` overwrites `options.targets`; running it again on
   * the overwritten array, with the same configuration, changes nothing.
   */
  lemma BuildTargetsAgain(ts: seq<RequestTarget>, excludedFlags: bv32, excludeNormalFlags: bool)
    ensures var bs := BuildTargets(ts, excludedFlags, excludeNormalFlags);
            BuildTargets(AsTargets(bs), excludedFlags, excludeNormalFlags) == bs
  {
    var bs := BuildTargets(ts, excludedFlags, excludeNormalFlags);
    forall i | 0 <= i < |ts|
      ensures BuildTarget(Backend(bs[i]), excludedFlags, excludeNormalFlags) == bs[i]
    {
      BuildTargetAgain(ts[i], excludedFlags, excludeNormalFlags);
    }
  }

  /** `targets.filter(t => !t.hide)`: the targets that are not hidden, in order. */
  function Visible(ts: seq<RequestTarget>): (vs: seq<RequestTarget>)
    ensures |vs| <= |ts|
    ensures forall t :: t in vs <==> t in ts && !t.Hidden()
  {
    if ts == [] then []
    else Visible(ts[..|ts| - 1]) + (if ts[|ts| - 1].Hidden() then [] else [ts[|ts| - 1]])
  }

  /** The filter keeps the order: filtering a concatenation concatenates the filtered parts. */
  lemma {:induction false} VisibleAppend(a: seq<RequestTarget>, b: seq<RequestTarget>)
    ensures Visible(a + b) == Visible(a) + Visible(b)
  {
    if b == [] {
      assert a + b == a;
    } else {
      var b' := b[..|b| - 1];
      assert (a + b)[..|a + b| - 1] == a + b';
      VisibleAppend(a, b');
    }
  }

  /** Hiding is decided per target, so filtering twice is filtering once. */
  lemma {:induction false} VisibleTwice(ts: seq<RequestTarget>)
    ensures Visible(Visible(ts)) == Visible(ts)
  {
    if ts != [] {
      var init, last := ts[..|ts| - 1], ts[|ts| - 1];
      VisibleTwice(init);
      VisibleAppend(Visible(init), if last.Hidden() then [] else [last]);
      assert Visible([last]) == if last.Hidden() then [] else [last] by {
        assert [last][..0] == [];
      }
    }
  }

  /**
   * Filtering the built records is building only the shown targets: the
   * records keep `hide`, so the request sent to `/query` holds exactly the
   * records of the targets that are not hidden, in order.
   */
  lemma {:induction false} VisibleBuilt(ts: seq<RequestTarget>, excludedFlags: bv32, excludeNormalFlags: bool)
    ensures Visible(AsTargets(BuildTargets(ts, excludedFlags, excludeNormalFlags)))
            == AsTargets(BuildTargets(Visible(ts), excludedFlags, excludeNormalFlags))
  {
    if ts != [] {
      var init, last := ts[..|ts| - 1], ts[|ts| - 1];
      assert ts == init + [last];
      BuiltAppend(init, [last], excludedFlags, excludeNormalFlags);
      VisibleAppend(AsTargets(BuildTargets(init, excludedFlags, excludeNormalFlags)), AsTargets(BuildTargets([last], excludedFlags, excludeNormalFlags)));
      VisibleBuilt(init, excludedFlags, excludeNormalFlags);
      VisibleBuiltOne(last, excludedFlags, excludeNormalFlags);
      VisibleAppend(init, [last]);
      BuiltAppend(Visible(init), Visible([last]), excludedFlags, excludeNormalFlags);
    }
  }

  lemma BuiltAppend(a: seq<RequestTarget>, b: seq<RequestTarget>, excludedFlags: bv32, excludeNormalFlags: bool)
    ensures AsTargets(BuildTargets(a + b, excludedFlags, excludeNormalFlags))
            == AsTargets(BuildTargets(a, excludedFlags, excludeNormalFlags)) + AsTargets(BuildTargets(b, excludedFlags, excludeNormalFlags))
  {
  }

  lemma VisibleBuiltOne(t: RequestTarget, excludedFlags: bv32, excludeNormalFlags: bool)
    ensures Visible(AsTargets(BuildTargets([t], excludedFlags, excludeNormalFlags)))
            == AsTargets(BuildTargets(Visible([t]), excludedFlags, excludeNormalFlags))
  {
    var built := AsTargets(BuildTargets([t], excludedFlags, excludeNormalFlags));
    assert built[..0] == [] && [t][..0] == [];
    assert built[0].Hidden() == t.Hidden();
  }

  /** The elements of one target; a target without `elements` has none. */
  function ElementsOf(t: RequestTarget): seq<string>
  {
    if t.Elements().None? then [] else t.Elements().value
  }

  /** Every element of every target that has elements, in target order, then element order. */
  function AllElements(ts: seq<RequestTarget>): seq<string>
  {
    if ts == [] then [] else AllElements(ts[..|ts| - 1]) + ElementsOf(ts[|ts| - 1])
  }

  /** The metadata request: one record per element, each asking for every table. */
  function MetadataRecords(elements: seq<string>, tables: seq<string>): (recs: seq<MetadataTarget>)
    ensures |recs| == |elements|
    ensures forall i :: 0 <= i < |elements| ==> recs[i].target == elements[i] && recs[i].tables == tables
  {
    seq(|elements|, i requires 0 <= i < |elements| => MetadataTarget(elements[i], tables))
  }

  lemma {:induction false} AllElementsAppend(a: seq<RequestTarget>, b: seq<RequestTarget>)
    ensures AllElements(a + b) == AllElements(a) + AllElements(b)
  {
    if b == [] {
      assert a + b == a;
    } else {
      var b' := b[..|b| - 1];
      assert (a + b)[..|a + b| - 1] == a + b';
      AllElementsAppend(a, b');
    }
  }

  /**
   * An element is in the metadata request exactly when some target has an
   * element list that holds it.
   */
  lemma {:induction false} AllElementsMembers(ts: seq<RequestTarget>, e: string)
    ensures e in AllElements(ts) <==> exists i :: 0 <= i < |ts| && ts[i].Elements().Some? && e in ts[i].Elements().value
  {
    if ts != [] {
      var init := ts[..|ts| - 1];
      AllElementsMembers(init, e);
      if e in AllElements(init) {
        var i :| 0 <= i < |init| && init[i].Elements().Some? && e in init[i].Elements().value;
        assert ts[i] == init[i];
      }
      if exists i :: 0 <= i < |ts| && ts[i].Elements().Some? && e in ts[i].Elements().value {
        var i :| 0 <= i < |ts| && ts[i].Elements().Some? && e in ts[i].Elements().value;
        if i < |ts| - 1 {
          assert init[i] == ts[i];
        }
      }
    }
  }

  /** The records keep each target's elements, so the metadata request does not change. */
  lemma {:induction false} AllElementsBuilt(ts: seq<RequestTarget>, excludedFlags: bv32, excludeNormalFlags: bool)
    ensures AllElements(AsTargets(BuildTargets(ts, excludedFlags, excludeNormalFlags))) == AllElements(ts)
  {
    if ts != [] {
      var built := AsTargets(BuildTargets(ts, excludedFlags, excludeNormalFlags));
      assert built[..|built| - 1] == AsTargets(BuildTargets(ts[..|ts| - 1], excludedFlags, excludeNormalFlags));
      AllElementsBuilt(ts[..|ts| - 1], excludedFlags, excludeNormalFlags);
    }
  }

  /** "table:column" for each column of one table that is switched on, other than "Select All". */
  function ColumnOptions(table: string, columns: Entries<bool>): seq<string>
  {
    if columns == [] then []
    else
      var c := columns[|columns| - 1];
      ColumnOptions(table, columns[..|columns| - 1]) + (if c.1 && c.0 != SelectAll then [table + ":" + c.0] else [])
  }

  /** The selected metadata options, table by table in enumeration order. */
  function SelectedOptions(metadata: Entries<Entries<bool>>): seq<string>
  {
    if metadata == [] then []
    else
      var t := metadata[|metadata| - 1];
      SelectedOptions(metadata[..|metadata| - 1]) + ColumnOptions(t.0, t.1)
  }

  /** Column `j` of table `i` is switched on and is not "Select All". */
  predicate IsSelected(metadata: Entries<Entries<bool>>, i: int, j: int)
  {
    0 <= i < |metadata| && 0 <= j < |metadata[i].1| && metadata[i].1[j].1 && metadata[i].1[j].0 != SelectAll
  }

  lemma {:induction false} ColumnOptionsMembers(table: string, columns: Entries<bool>, s: string)
    ensures s in ColumnOptions(table, columns) <==>
              exists j :: 0 <= j < |columns| && columns[j].1 && columns[j].0 != SelectAll && s == table + ":" + columns[j].0
  {
    if columns != [] {
      var init := columns[..|columns| - 1];
      ColumnOptionsMembers(table, init, s);
      if s in ColumnOptions(table, init) {
        var j :| 0 <= j < |init| && init[j].1 && init[j].0 != SelectAll && s == table + ":" + init[j].0;
        assert columns[j] == init[j];
      }
      if exists j :: 0 <= j < |columns| && columns[j].1 && columns[j].0 != SelectAll && s == table + ":" + columns[j].0 {
        var j :| 0 <= j < |columns| && columns[j].1 && columns[j].0 != SelectAll && s == table + ":" + columns[j].0;
        if j < |columns| - 1 {
          assert init[j] == columns[j];
        }
      }
    }
  }

  /**
   * A string is a selected metadata option exactly when it is
   * "table:column" for a column switched on that is not "Select All".
   */
  lemma {:induction false} SelectedOptionsMembers(metadata: Entries<Entries<bool>>, s: string)
    ensures s in SelectedOptions(metadata) <==>
              exists i, j :: IsSelected(metadata, i, j) && s == metadata[i].0 + ":" + metadata[i].1[j].0
  {
    if metadata != [] {
      var init, last := metadata[..|metadata| - 1], metadata[|metadata| - 1];
      SelectedOptionsMembers(init, s);
      ColumnOptionsMembers(last.0, last.1, s);
      if s in SelectedOptions(init) {
        var i, j :| IsSelected(init, i, j) && s == init[i].0 + ":" + init[i].1[j].0;
        assert metadata[i] == init[i];
        assert IsSelected(metadata, i, j);
      }
      if s in ColumnOptions(last.0, last.1) {
        var j :| 0 <= j < |last.1| && last.1[j].1 && last.1[j].0 != SelectAll && s == last.0 + ":" + last.1[j].0;
        assert IsSelected(metadata, |metadata| - 1, j);
      }
      if exists i, j :: IsSelected(metadata, i, j) && s == metadata[i].0 + ":" + metadata[i].1[j].0 {
        var i, j :| IsSelected(metadata, i, j) && s == metadata[i].0 + ":" + metadata[i].1[j].0;
        if i < |metadata| - 1 {
          assert init[i] == metadata[i];
          assert IsSelected(init, i, j);
        }
      }
    }
  }

  /** Which branch `query` takes, decided by the first target. */
  datatype Route =
    | NoTarget        // `options.targets[0]` is undefined: reading `.elements` throws
    | NoElements      // the first target has no `elements`: a frame with only the time range
    | Fetch           // no query type or "Element List": ask the backend for data and metadata
    | OtherQueryType  // any other query type: a frame with only the time range

  /**
   * The branch of `query`. The backend is asked exactly when the first
   * target has elements and would be joined with ";".
   */
  function RouteOf(targets: seq<RequestTarget>): (r: Route)
    ensures r == NoTarget <==> |targets| == 0
    ensures r == Fetch <==> |targets| > 0 && targets[0].Elements().Some? && Separator(targets[0].QueryType()) == ';'
    ensures r == OtherQueryType <==> |targets| > 0 && targets[0].Elements().Some? && Separator(targets[0].QueryType()) == ' '
  {
    if |targets| == 0 then NoTarget
    else if targets[0].Elements().None? then NoElements
    else if !Truthy(targets[0].QueryType()) || targets[0].QueryType().value == "Element List" then Fetch
    else OtherQueryType
  }
}

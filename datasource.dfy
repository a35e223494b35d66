/**
 * The `DataSource` class of datasource.ts with its HTTP calls taken out:
 * the configuration it keeps, the methods that shape the requests, and the
 * request plan `query` follows. The request object `query` receives is
 * updated in place, as in the source.
 */
module Datasource {
  import opened Wrappers
  import opened Types
  import opened ExcludedFlags
  import opened Templates
  import opened QueryParameters

  /** The `http` object of the instance settings; its `url` may be missing. */
  datatype HttpSettings = HttpSettings(url: Option<string>)

  /** The parts of the instance settings (`jsonData`) the constructor reads; each may be missing. */
  datatype Settings = Settings(
    http: Option<HttpSettings>,
    flags: Option<Entries<bool>>,
    metadata: Option<Entries<Entries<bool>>>)

  /** `DataQueryRequest`: the targets of a panel and its time range. */
  class QueryRequest {
    var targets: seq<RequestTarget>
    var rangeFrom: int
    var rangeTo: int

    constructor (targets: seq<RequestTarget>, rangeFrom: int, rangeTo: int)
      ensures this.targets == targets && this.rangeFrom == rangeFrom && this.rangeTo == rangeTo
    {
      this.targets := targets;
      this.rangeFrom := rangeFrom;
      this.rangeTo := rangeTo;
    }
  }

  /** What `query` does once the HTTP calls are taken out. */
  datatype QueryPlan =
    | Throws
      // `options.targets[0]` is undefined and reading its `elements` throws
    | TimeRangeFrame(refId: string, from: int, to: int)
      // a frame whose only field is "Time" with the values [from, to]
    | FetchPlan(refId: string, dataTargets: seq<RequestTarget>, metadataParameters: seq<MetadataTarget>)
      // the targets posted to `/query` and the list posted to `/getmetadatas`

  class DataSource {
    var url: string
    var flags: Entries<bool>
    var metadata: Entries<Entries<bool>>

    /**
     * A missing URL, flag object or metadata object becomes empty. The `http`
     * object is read without a check: when it is missing the source throws,
     * so it is required here.
     */
    constructor (settings: Settings)
      requires settings.http.Some?
      ensures url == (if settings.http.value.url.Some? then settings.http.value.url.value else "")
      ensures flags == (if settings.flags.Some? then settings.flags.value else [])
      ensures metadata == (if settings.metadata.Some? then settings.metadata.value else [])
    {
      url := if settings.http.value.url.Some? then settings.http.value.url.value else "";
      flags := if settings.flags.Some? then settings.flags.value else [];
      metadata := if settings.metadata.Some? then settings.metadata.value else [];
    }

    /**
     * `calculateFlags`: the XOR of the bits of the entries that are true and
     * are neither "Select All" nor "Normal", in enumeration order.
     */
    method CalculateFlags(defaultFlags: map<string, bv32>) returns (excluded: bv32)
      requires Covered(flags, defaultFlags)
      ensures excluded == Mask(flags, defaultFlags)
    {
      ghost var bits := Bits(flags, defaultFlags);
      excluded := 0;
      var i := 0;
      while i < |flags|
        invariant 0 <= i <= |flags|
        invariant excluded == XorAll(bits[..i])
      {
        var (key, value) := flags[i];
        MaskStep(flags, defaultFlags, i);
        if key != SelectAll && key != Normal && value == true {
          excluded := excluded ^ defaultFlags[key];
        }
        i := i + 1;
      }
      assert bits[..i] == bits;
    }

    /**
     * `this.flags["Normal"] ? this.flags["Normal"] : false`: true exactly
     * when the "Normal" entry is true.
     */
    function ExcludeNormalFlags(): (r: bool)
      reads this
      ensures r <==> exists i :: 0 <= i < |flags| && flags[i] == (Normal, true) && forall j :: 0 <= j < i ==> flags[j].0 != Normal
    {
      Lookup(flags, Normal) == Some(true)
    }

    /**
     * `buildQueryParameters`: replaces `options.targets` by the backend
     * records of its targets, all carrying this configuration's flags, and
     * returns the same request object.
     */
    method BuildQueryParameters(options: QueryRequest, defaultFlags: map<string, bv32>) returns (r: QueryRequest)
      requires Covered(flags, defaultFlags)
      modifies options`targets
      ensures r == options
      ensures options.targets == AsTargets(BuildTargets(old(options.targets), Mask(flags, defaultFlags), ExcludeNormalFlags()))
    {
      var excludedFlags := CalculateFlags(defaultFlags);
      var excludeNormalFlags := ExcludeNormalFlags();
      var targets := BuildTargets(options.targets, excludedFlags, excludeNormalFlags);
      options.targets := AsTargets(targets);
      r := options;
    }

    /**
     * `buildMetadataParameters`: one record per element of every target that
     * has elements, in target order and then element order, each asking for
     * every table of the metadata configuration.
     */
    method BuildMetadataParameters(options: QueryRequest) returns (recs: seq<MetadataTarget>)
      ensures recs == MetadataRecords(AllElements(options.targets), Keys(metadata))
      ensures |recs| == |AllElements(options.targets)|
      ensures forall i :: 0 <= i < |recs| ==>
                recs[i].target == AllElements(options.targets)[i] && recs[i].tables == Keys(metadata)
    {
      recs := [];
      var tables := Keys(metadata);
      var i := 0;
      while i < |options.targets|
        invariant 0 <= i <= |options.targets|
        invariant recs == MetadataRecords(AllElements(options.targets[..i]), tables)
      {
        var target := options.targets[i];
        assert options.targets[..i + 1][..i] == options.targets[..i];
        if target.Elements().None? {
          i := i + 1;
          continue;
        }
        var elements := target.Elements().value;
        ghost var before := AllElements(options.targets[..i]);
        var j := 0;
        assert before + elements[..0] == before;
        while j < |elements|
          invariant 0 <= j <= |elements|
          invariant recs == MetadataRecords(before + elements[..j], tables)
        {
          assert before + elements[..j + 1] == before + elements[..j] + [elements[j]];
          recs := recs + [MetadataTarget(elements[j], tables)];
          j := j + 1;
        }
        assert elements[..j] == elements;
        i := i + 1;
      }
      assert options.targets[..i] == options.targets;
    }

    /**
     * The selected metadata options of `query`: "table:column" for every
     * column switched on other than "Select All", table by table.
     */
    method SelectedMetadataOptions() returns (opts: seq<string>)
      ensures opts == SelectedOptions(metadata)
      ensures forall s :: s in opts <==>
                exists i, j :: IsSelected(metadata, i, j) && s == metadata[i].0 + ":" + metadata[i].1[j].0
    {
      opts := [];
      var t := 0;
      while t < |metadata|
        invariant 0 <= t <= |metadata|
        invariant opts == SelectedOptions(metadata[..t])
      {
        var (tableName, columns) := metadata[t];
        assert metadata[..t + 1][..t] == metadata[..t];
        ghost var before := opts;
        var c := 0;
        while c < |columns|
          invariant 0 <= c <= |columns|
          invariant opts == before + ColumnOptions(tableName, columns[..c])
        {
          var (columnName, value) := columns[c];
          assert columns[..c + 1][..c] == columns[..c];
          if value == true && columnName != SelectAll {
            opts := opts + [tableName + ":" + columnName];
          }
          c := c + 1;
        }
        assert columns[..c] == columns;
        t := t + 1;
      }
      assert metadata[..t] == metadata;
      forall s
        ensures s in opts <==> exists i, j :: IsSelected(metadata, i, j) && s == metadata[i].0 + ":" + metadata[i].1[j].0
      {
        SelectedOptionsMembers(metadata, s);
      }
    }

    /**
     * `query` without its HTTP calls. With no first target it throws; when
     * the first target has no elements, or a query type other than an
     * element list, it answers with the time range alone. Otherwise it
     * builds the records in place, drops the hidden ones from the same
     * request object, and builds the metadata list from that object: so both
     * requests cover only the targets that are not hidden.
     */
    method Query(options: QueryRequest, defaultFlags: map<string, bv32>) returns (plan: QueryPlan)
      requires RouteOf(options.targets) == Fetch ==> Covered(flags, defaultFlags)
      modifies options`targets
      ensures var ts := old(options.targets);
              match RouteOf(ts)
              case NoTarget => plan == Throws && options.targets == ts
              case NoElements => plan == TimeRangeFrame(ts[0].RefId(), options.rangeFrom, options.rangeTo) && options.targets == ts
              case OtherQueryType => plan == TimeRangeFrame(ts[0].RefId(), options.rangeFrom, options.rangeTo) && options.targets == ts
              case Fetch =>
                var sent := AsTargets(BuildTargets(Visible(ts), Mask(flags, defaultFlags), ExcludeNormalFlags()));
                && plan == FetchPlan(ts[0].RefId(), sent, MetadataRecords(AllElements(Visible(ts)), Keys(metadata)))
                && options.targets == sent
    {
      var from, to := options.rangeFrom, options.rangeTo;
      var selectedMetadataOptions := SelectedMetadataOptions();
      ghost var ts := options.targets;
      if |options.targets| == 0 {
        assert RouteOf(ts) == NoTarget;
        return Throws;
      }
      var target := options.targets[0];
      if target.Elements().None? {
        assert RouteOf(ts) == NoElements;
        return TimeRangeFrame(target.RefId(), from, to);
      }
      if !Truthy(target.QueryType()) || target.QueryType().value == "Element List" {
        assert RouteOf(ts) == Fetch;
        ghost var mask, normal := Mask(flags, defaultFlags), ExcludeNormalFlags();
        var query := BuildQueryParameters(options, defaultFlags);
        query.targets := Visible(query.targets);
        VisibleBuilt(ts, mask, normal);
        assert options.targets == AsTargets(BuildTargets(Visible(ts), mask, normal));
        var metadataParameters := BuildMetadataParameters(options);
        AllElementsBuilt(Visible(ts), mask, normal);
        assert metadataParameters == MetadataRecords(AllElements(Visible(ts)), Keys(metadata));
        return FetchPlan(target.RefId(), query.targets, metadataParameters);
      } else {
        assert RouteOf(ts) == OtherQueryType;
        return TimeRangeFrame(target.RefId(), from, to);
      }
    }
  }
}

/** Optional values: a JavaScript property that may be `undefined`. */
module Wrappers {

  datatype Option<+T> = None | Some(value: T)
}

/**
 * The shapes the data source works on: the panel query (`MyQuery`), the
 * record sent to the historian's `/query` endpoint for each target, the
 * record sent to `/getmetadatas`, and JavaScript objects seen through
 * `Object.entries`.
 */
module Types {
  import opened Wrappers

  /** A JavaScript object as `Object.entries` lists it: key/value pairs in enumeration order. */
  type Entries<V> = seq<(string, V)>

  /** `Object.keys(o)`: the keys, in the same order as the entries. */
  function Keys<V>(o: Entries<V>): (ks: seq<string>)
    ensures |ks| == |o|
    ensures forall i :: 0 <= i < |o| ==> ks[i] == o[i].0
  {
    seq(|o|, i requires 0 <= i < |o| => o[i].0)
  }

  /** `o[k]`: the value stored under key `k`, or `undefined`. */
  function Lookup<V>(o: Entries<V>, k: string): (r: Option<V>)
    ensures r.None? <==> forall i :: 0 <= i < |o| ==> o[i].0 != k
    ensures r.Some? ==> exists i :: 0 <= i < |o| && o[i] == (k, r.value) && forall j :: 0 <= j < i ==> o[j].0 != k
  {
    if o == [] then None
    else if o[0].0 == k then Some(o[0].1)
    else Lookup(o[1..], k)
  }

  /** A key is listed by `Object.keys` exactly when reading it gives a value. */
  lemma KeysReadable<V>(o: Entries<V>, k: string)
    ensures k in Keys(o) <==> Lookup(o, k).Some?
  {
    if k in Keys(o) {
      var i :| 0 <= i < |Keys(o)| && Keys(o)[i] == k;
      assert o[i].0 == k;
    }
  }

  /** The pseudo-entry a "select everything" checkbox adds to flag and column objects. */
  const SelectAll: string := "Select All"

  /** JavaScript truthiness of an optional string: `undefined` and `""` are falsy. */
  predicate Truthy(s: Option<string>)
  {
    s.Some? && s.value != ""
  }

  /** The per-query options a panel query carries (types.ts). */
  datatype PanelOptions = PanelOptions(excludedDataFlags: int, excludeNormalData: bool, updateAlarms: bool)

  /** `MyQuery`: one panel query as the query editor fills it in. */
  datatype PanelQuery = PanelQuery(
    refId: string,
    hide: Option<bool>,
    elements: Option<seq<string>>,
    queryType: Option<string>,
    queryOptions: Option<PanelOptions>)

  /** The flag options repeated inside every backend target. */
  datatype BackendOptions = BackendOptions(excludedFlags: bv32, excludeNormalFlags: bool)

  /** The record `buildQueryParameters` puts in place of each panel query. */
  datatype BackendTarget = BackendTarget(
    target: string,
    refId: string,
    hide: Option<bool>,
    excludedFlags: bv32,
    excludeNormalFlags: bool,
    queryOptions: BackendOptions,
    queryType: string,
    elements: Option<seq<string>>)

  /**
   * An entry of `options.targets`. The array first holds panel queries and,
   * once `buildQueryParameters` has overwritten it, backend records; the code
   * after that reads the same property names from either kind.
   */
  datatype RequestTarget = Panel(query: PanelQuery) | Backend(record: BackendTarget)
  {
    function RefId(): string
    {
      match this
      case Panel(q) => q.refId
      case Backend(b) => b.refId
    }

    function Hide(): Option<bool>
    {
      match this
      case Panel(q) => q.hide
      case Backend(b) => b.hide
    }

    function Elements(): Option<seq<string>>
    {
      match this
      case Panel(q) => q.elements
      case Backend(b) => b.elements
    }

    function QueryType(): Option<string>
    {
      match this
      case Panel(q) => q.queryType
      case Backend(b) => Some(b.queryType)
    }

    /** `!!t.hide`: only `true` hides a target. */
    predicate Hidden()
    {
      Hide() == Some(true)
    }
  }

  /** `MetadataTarget`: one element and the metadata tables asked for it. */
  datatype MetadataTarget = MetadataTarget(target: string, tables: seq<string>)
}

# openHistorian data source for Grafana: request shaping and response regrouping

This project models the logic of the openHistorian Grafana data source
(`gpa-openhistorian-datasource/src/datasource.ts`) that sits between a panel's
queries and the backend, with the HTTP calls taken out:

- **Flag mask** (`calculateFlags`): the exclusion bitmask folded from the
  configured quality-flag toggles, as the XOR of the bit of every entry that is
  switched on and is neither `"Select All"` nor `"Normal"`.
- **Target string** (`fixTemplates`): the elements of a query joined with `";"`
  when the query type is missing, empty or `"Element List"`, and with `" "` for
  any other query type.
- **Backend records** (`buildQueryParameters`): one record per panel target.
  Each carries the target string, the flag options and a defaulted query type.
  The records replace `options.targets` in place.
- **Metadata request** (`buildMetadataParameters`): one record per element,
  each asking for every configured metadata table.
- **Selected metadata options**: the `"table:column"` names of the columns that
  are switched on.
- **Hide filter and branch choice of `query`**. In the fetch branch, `query`
  builds the records into the request object and drops the hidden ones from
  that same object. It then builds the metadata list from it. So both backend
  requests cover exactly the targets that are not hidden.
- **Response regrouping** (`groupPoints`): a `/query` response turned into one
  dictionary per timestamp, mapping each target to its value.

Modules:

- `types.dfy`: `Wrappers` (Option) and `Types`.
  - `Types` models JavaScript objects as entry sequences in `Object.entries` order.
  - It also holds the panel query, the backend record, and the metadata request record.
  - `RequestTarget` is either a panel query or a backend record. That is the
    element type of `options.targets` before and after `buildQueryParameters`
    overwrites it.
- `flags.dfy`: `ExcludedFlags`, the mask and its algebra.
- `templates.dfy`: `Templates`, with `fixTemplates`, `join` and `split`.
- `query_parameters.dfy`: `QueryParameters`, the pure mappings and filters used by `query`.
- `group_points.dfy`: `GroupPoints`, the regrouping loop and the specification it meets.
- `datasource.dfy`: `Datasource`, holding the `DataSource` class and the request object.
  - The class keeps `url`, `flags` and `metadata`.
  - Its methods have the loops and the in-place update of the source.
  - `Query` gives the plan `query` follows: it throws, it returns a time-range-only
    frame, or it fetches with the given data targets and metadata list.

## Model

| member | source | states |
|---|---|---|
| Datasource.DataSource.constructor | gpa-openhistorian-datasource/src/datasource.ts:47-49 | given an `http` object, a missing URL, flag object or metadata object becomes the empty value and a present one is kept |
| Datasource.DataSource.CalculateFlags | gpa-openhistorian-datasource/src/datasource.ts:92-102 | the loop's accumulator ends equal to `Mask(flags, table)`: the XOR, in enumeration order, of the table bit of every entry that is true and is neither "Select All" nor "Normal" |
| ExcludedFlags.MaskOfNothing | gpa-openhistorian-datasource/src/datasource.ts:93-101 | when no entry is switched on apart from the pseudo-flags, no table lookup is needed and the mask is 0 |
| ExcludedFlags.MaskAppend | gpa-openhistorian-datasource/src/datasource.ts:95-99 | the mask of two runs of entries is the XOR of their masks |
| ExcludedFlags.MaskWithout | gpa-openhistorian-datasource/src/datasource.ts:95-99 | removing one entry from anywhere removes exactly its contribution: its bit if it excludes, nothing otherwise |
| ExcludedFlags.MaskIgnores | gpa-openhistorian-datasource/src/datasource.ts:96 | adding or removing an entry that is false, "Select All" or "Normal" anywhere leaves the mask unchanged |
| ExcludedFlags.MaskOfContributing | gpa-openhistorian-datasource/src/datasource.ts:95-99 | the mask depends only on the entries that are true and not pseudo-flags: dropping all the others keeps it |
| ExcludedFlags.Contributing | gpa-openhistorian-datasource/src/datasource.ts:96 | an entry is kept exactly when it is in the flags and is true and not a pseudo-flag |
| ExcludedFlags.MaskPermutation | gpa-openhistorian-datasource/src/datasource.ts:95-99 | reordering the flag entries keeps the table lookups possible and the mask unchanged |
| ExcludedFlags.MaskFlip | gpa-openhistorian-datasource/src/datasource.ts:96-97 | switching a real flag from false to true toggles exactly its table bit in the mask |
| ExcludedFlags.XorAllPermutation | gpa-openhistorian-datasource/src/datasource.ts:97 | the XOR fold of a run of words does not depend on their order |
| Types.Lookup | gpa-openhistorian-datasource/src/datasource.ts:120 | reading a key of an object gives nothing exactly when no entry has that key, and otherwise the value of the first entry with it |
| Types.KeysReadable | gpa-openhistorian-datasource/src/datasource.ts:148 | a key is listed by `Object.keys` exactly when reading that key from the object gives a value |
| Datasource.DataSource.ExcludeNormalFlags | gpa-openhistorian-datasource/src/datasource.ts:120-122 | true exactly when the "Normal" entry is present and true |
| Templates.Separator | gpa-openhistorian-datasource/src/datasource.ts:109-112 | the separator is ";" exactly when the query type is missing, empty or "Element List", and " " otherwise |
| Templates.FixTemplates | gpa-openhistorian-datasource/src/datasource.ts:104-107 | "" for a missing target or missing elements, and "" for an empty element list |
| Templates.FixTemplatesRecoversElements | gpa-openhistorian-datasource/src/datasource.ts:109-114 | splitting the target string on the separator of the query type gives back the elements, when there is at least one and none holds the separator |
| Templates.SplitJoin | gpa-openhistorian-datasource/src/datasource.ts:114 | a non-empty list joined with a character no element holds splits back into the list |
| Templates.JoinSplit | gpa-openhistorian-datasource/src/datasource.ts:114 | any string split on a character and joined with it again is unchanged |
| QueryParameters.QueryTypeOrDefault | gpa-openhistorian-datasource/src/datasource.ts:134 | the query type is kept when it is truthy and is "Element List" otherwise, so it is never empty |
| QueryParameters.BuildTargets | gpa-openhistorian-datasource/src/datasource.ts:124-136 | one record per target, in order; each keeps refId, hide and elements, has the `fixTemplates` string and the defaulted query type, and has the same flag options at top level and in `queryOptions` |
| QueryParameters.BuildTargetsAgain | gpa-openhistorian-datasource/src/datasource.ts:124-138 | building the records of the overwritten target array again, with the same flags, gives the same records |
| Datasource.DataSource.BuildQueryParameters | gpa-openhistorian-datasource/src/datasource.ts:118-141 | `options.targets` is replaced by the records built with the mask and the "Normal" option of this configuration, and the same object is returned |
| Datasource.DataSource.BuildMetadataParameters | gpa-openhistorian-datasource/src/datasource.ts:143-164 | one record per element of every target that has elements, in target order then element order, each with the key list of the metadata configuration as its tables |
| QueryParameters.AllElementsMembers | gpa-openhistorian-datasource/src/datasource.ts:150-161 | an element is in the metadata request exactly when some target has an element list holding it |
| QueryParameters.AllElementsAppend | gpa-openhistorian-datasource/src/datasource.ts:150-161 | the element list of two runs of targets is the concatenation of theirs |
| QueryParameters.AllElementsBuilt | gpa-openhistorian-datasource/src/datasource.ts:135 | the records keep each target's elements, so the metadata request is the same before and after the records are built |
| QueryParameters.Visible | gpa-openhistorian-datasource/src/datasource.ts:203-205 | a target is kept exactly when it is in the list and its `hide` is not true |
| QueryParameters.VisibleAppend | gpa-openhistorian-datasource/src/datasource.ts:203-205 | the filter keeps the order: filtering a concatenation concatenates the filtered parts |
| QueryParameters.VisibleTwice | gpa-openhistorian-datasource/src/datasource.ts:203-205 | filtering twice is filtering once |
| QueryParameters.VisibleBuilt | gpa-openhistorian-datasource/src/datasource.ts:200-205 | filtering the built records gives the records of exactly the targets that are not hidden, in order |
| QueryParameters.ColumnOptionsMembers | gpa-openhistorian-datasource/src/datasource.ts:175-179 | an option of one table is listed exactly when it is "table:column" for a column switched on that is not "Select All" |
| QueryParameters.SelectedOptionsMembers | gpa-openhistorian-datasource/src/datasource.ts:172-180 | a string is a selected metadata option exactly when it is "table:column" for some table and some column switched on that is not "Select All" |
| Datasource.DataSource.SelectedMetadataOptions | gpa-openhistorian-datasource/src/datasource.ts:172-180 | the nested loops list the selected options table by table, and a string is listed exactly when it names a selected column |
| QueryParameters.RouteOf | gpa-openhistorian-datasource/src/datasource.ts:183-199 | there is no first target exactly when the list is empty; the backend is asked exactly when the first target has elements and its query type selects ";"; the time-range-only frame of the last branch is given exactly when it has elements and its type selects " " |
| Datasource.DataSource.Query | gpa-openhistorian-datasource/src/datasource.ts:166-276 | with no first target it throws; with no elements or another query type it gives the time-range frame and leaves the targets alone; otherwise the records of exactly the targets that are not hidden are both the request's new targets and the data request, and the metadata request lists the elements of exactly those targets |
| GroupPoints.GroupKeys | gpa-openhistorian-datasource/src/datasource.ts:304-322 | the groups are exactly the timestamps that occur in some datapoint |
| GroupPoints.GroupTargets | gpa-openhistorian-datasource/src/datasource.ts:314-318 | each group holds exactly the targets with a datapoint at its timestamp, and a timestamp with no group has none |
| GroupPoints.GroupLastWins | gpa-openhistorian-datasource/src/datasource.ts:314-318 | when a timestamp and target occur more than once, the group holds the value of the last occurrence in series-then-datapoint order |
| GroupPoints.GroupGrows | gpa-openhistorian-datasource/src/datasource.ts:309-319 | a later datapoint never removes a group, nor a target from a group |
| GroupPoints.GroupPointsOf | gpa-openhistorian-datasource/src/datasource.ts:304-322 | the nested loops build the grouping of all datapoints in visiting order: its keys are the timestamps, its groups the targets present there, and each holds the last value |

## Left out

- The HTTP calls are not modelled: `searchQuery`, `dataQuery`, `metadataQuery`, `metadatasQuery`, `testDatasource` (datasource.ts:53-89, 279-300). They are network I/O against a backend this model does not include. `Query` returns the requests it would send instead.
- Frame building in `query` is not modelled: `MutableDataFrame`, `addField`, `frame.add`, `JSON.parse`, `console.log` (datasource.ts:208-258). These are Grafana library objects and logging. The order of rows at line 250 depends on how JavaScript enumerates stringified timestamp keys, and no order is claimed.
- The response passed to `groupPoints` is taken as given. Its `data` field, a list of series, is the method's parameter.
- The time range of the request is modelled as two integers. `range!.from.valueOf()` is library code.
- The selected metadata options are computed in `query` but used only by commented-out code, so nothing depends on them.
- The bit table `DefaultFlags` lives in `./js/constants`, which is not part of this model. It is a `map<string, bv32>` parameter, and no bit values are assumed.
- Datasource.DataSource.constructor: line 47 reads `jsonData.http.url` without checking that `http` exists, so a missing `http` object throws a TypeError. The model requires `http` to be present. A `url` of `None` stands only for a missing URL inside a present `http` object.
- Datasource.DataSource.CalculateFlags: the precondition `Covered` requires every entry that is true and not a pseudo-flag to be in the table. Where JavaScript would throw a TypeError on a missing key, the model has a precondition instead. `Datasource.DataSource.BuildQueryParameters` carries the same precondition, because its first step (line 119) is `calculateFlags`.
- Datasource.DataSource.Query: on the fetch branch it carries the same precondition, for the same reason.
- Datasource.DataSource.CalculateFlags: JavaScript `^` converts to a signed 32-bit integer, so a mask with the top bit set reads as negative. The model keeps the unsigned `bv32` bit pattern, which is the same 32 bits.
- Timestamps are integers and values have an opaque type. JavaScript uses timestamps as object keys, which are stringified, and integers stringify one-to-one. Nothing in the source does arithmetic on values.
- Keys of JavaScript objects are unique. The entry sequences do not assume this. Reads take the first entry with the key, which is the only one when keys are unique.
- `QueryEditor.tsx` and `ConfigEditor.tsx` are not modelled. They are React user-interface code: state hooks, an asynchronous search, and locale-dependent sorting and filtering.
- `types.ts` gives only the shape of the panel query (`elements`, `queryType`, `queryOptions`) and the `DEFAULT_QUERY` constant. The model uses only the shape.
- No expression serializer and no text-to-element-list parser appear in `datasource.ts`, and none is modelled. The code only joins elements into the target string (line 114). `Templates.Split` is this model's own inverse of that join. It exists only so that `Templates.FixTemplatesRecoversElements` can state that the target string determines the elements.

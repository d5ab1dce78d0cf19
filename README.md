# CloudWatchClient, modelled in Dafny

`CloudWatchClient` (`cloud_watch_client.py`) is a thin wrapper around the boto3
CloudWatch client. It submits metric values, creates, deletes and lists alarms.
Its own logic is small and deterministic:

- it normalises identifiers to ASCII, spelling out German umlauts and sharp s;
- it merges the client's default dimensions with per-call dimensions;
- it builds the request dicts, where later overlays win;
- it decides whether `set_alarm` creates an alarm or leaves an existing one alone;
- it pages through `describe_alarms`;
- it either swallows or raises a failed call.

This project models that logic and proves what it promises.

Layout, one module per file:

- `wrappers.dfy` (`Wrappers`): `Option` (Python's `None`) and `Result` (a value returned, or an exception that escapes).
- `dicts.dfy` (`Dicts`): Python dicts as association lists `seq<(string, V)>`. A dict keeps insertion order. `Put` is `d[k] = v`: it updates the value in place or appends a new key. `Merge(a, b)` is `{**a, **b}`. `Get` returns the value of the last pair with a key, as `dict(pairs)` would.
- `normaliser.dfy` (`Normaliser`): `_normalise_string`, modelled twice and proved equal:
  - per code point: `NormaliseChar` applied by `Normalise`;
  - as written: the chain of seven `str.replace` passes, then the ASCII filter (`NormaliseAsWritten`).
- `dimensions.dfy` (`Dimensions`):
  - `_normalise_dimensions`: a loop method, `NormaliseDimensions`, proved against the function `NormalisedDimensions`;
  - `_dict_as_list`;
  - `_get_dimensions_as_list`.
- `requests.dfy` (`Requests`): request values, the alarm-name rule, and the request dicts of every operation, with their precedence.
- `service.dfy` (`Service`): the CloudWatch API as a scripted collaborator, the class `CloudWatchService`. Each call takes the next outcome from a finite script and appends itself to a ghost log. An outcome is a response or a failure.
- `alarms.dfy` (`Alarms`): the decisions the client takes from the API's answers, as functions with lemmas:
  - the existence check;
  - swallow-or-raise;
  - the upsert rule of `set_alarm`;
  - the pagination of `get_alarms`.
- `client.dfy` (`Client`): the class `CloudWatchClient`. Its configuration is immutable `const` fields, set by the constructor from `__init__`. Its methods call the collaborator step by step, as the Python methods do. Each method's postcondition gives its result, the calls it issued and the script it left, in terms of the functions above.

The code's quirks are kept as written:

- `Ä` is replaced by `"Äe"`, and the ASCII step drops the `Ä`, so `Ä` becomes `"e"`.
- `Ö` becomes lower-case `"oe"`, and `Ü` becomes `"Ue"`.
- `delete_alarm` lays the client's `alarm_config` over the delete request too.
- `get_alarms` stops only on a `NextToken` that is `None`, so an empty-string token asks for another page.
- In `_alarm_existing`, a response without `MetricAlarms` fails in the `else` branch of the `try`. That branch is outside the handler, so the resulting `TypeError` escapes even when exceptions are swallowed.

## Model

| member | source | states |
|---|---|---|
| `Normaliser.NormaliseChar` | cloud_watch_client.py:210-214 | the image of one code point under the replace passes and the ASCII filter (ä→ae, Ä→e, ö→oe, Ö→oe, ü→ue, Ü→Ue, ß→ss, other ASCII kept, other non-ASCII deleted); it is at most two code points long |
| `Normaliser.Normalise` | cloud_watch_client.py:209-215 | `_normalise_string`, code point by code point; the result is at most twice as long as the input |
| `Normaliser.NormaliseAsWritten` | cloud_watch_client.py:210-214 | `_normalise_string` as written: the seven `replace` passes in source order, then `encode('ascii', 'ignore')`; no contract of its own, `AsWrittenIsNormalise` proves it equal to `Normalise` |
| `Normaliser.NormaliseIsAscii` | cloud_watch_client.py:209-215 | the normalised string is pure ASCII (every code point below 128) |
| `Normaliser.AsWrittenIsNormalise` | cloud_watch_client.py:210-214 | the literal chain of seven replace passes followed by `encode('ascii', 'ignore')` equals the per-code-point table: ä→ae, Ä→e, ö→oe, Ö→oe, ü→ue, Ü→Ue, ß→ss, other ASCII kept, other non-ASCII deleted |
| `Normaliser.AsWrittenOnChar` | cloud_watch_client.py:210-214 | for each single code point, the seven passes and the ASCII filter give exactly that code point's table entry |
| `Normaliser.NormaliseCharOutsideTable` | cloud_watch_client.py:214 | a code point outside the umlaut table is kept if ASCII and deleted otherwise |
| `Normaliser.NormaliseInContext` | cloud_watch_client.py:209-215 | a code point's image is spliced in where the code point stands |
| `Normaliser.NormaliseAppend` | cloud_watch_client.py:209-215 | normalisation distributes over concatenation |
| `Normaliser.NormaliseKeepsAscii` | cloud_watch_client.py:214 | pure-ASCII input is returned unchanged |
| `Normaliser.NormaliseIdempotent` | cloud_watch_client.py:209-215 | normalising twice gives the same string as normalising once |
| `Dicts.Put` | cloud_watch_client.py:220 | `d[k] = v` keeps keys distinct, binds `k` to `v` and leaves every other key's value alone |
| `Dicts.PutShape` | cloud_watch_client.py:220 | `d[k] = v` with a new key appends the pair `(k, v)`; with an existing key it keeps the length and every key in its place |
| `Dicts.PutKeys` | cloud_watch_client.py:220 | `d[k] = v` leaves the key order alone for an existing key and appends a new key at the end |
| `Dicts.Merge` | cloud_watch_client.py:225 | `{**a, **b}` keeps keys distinct; each key takes its value from `b` when `b` binds it, else from `a` |
| `Dicts.MergeKeys` | cloud_watch_client.py:225 | `{**a, **b}` keeps `a`'s keys in place, then appends `b`'s new keys in `b`'s order; its keys are those of `a` and `b` together |
| `Dicts.MergeSnoc` | cloud_watch_client.py:219-220 | assigning the pairs of `b + [p]` in turn ends with assigning `p` |
| `Dicts.PairIffGet` | cloud_watch_client.py:228 | the pairs of a dict are exactly its key/value bindings |
| `Dimensions.NormalisedDimensions` | cloud_watch_client.py:217-221 | the dict `_normalise_dimensions` returns: the normalised pairs assigned in turn into `{}`; its keys are distinct |
| `Dimensions.NormaliseDimensions` | cloud_watch_client.py:217-221 | the loop builds exactly the dict of the normalised pairs, assigned in order |
| `Dimensions.NormalisedPairsGet` | cloud_watch_client.py:217-221 | after normalising every pair, a key is bound to `v` iff `v` is the normalised value of the last pair whose key normalises to it |
| `Dimensions.NormalisedDimensionsGet` | cloud_watch_client.py:217-221 | in the normalised dict, a key is bound to `v` iff the last source key that normalises to it carries a value that normalises to `v` |
| `Dimensions.DictAsList` | cloud_watch_client.py:227-228 | `_dict_as_list`: one `{Name, Value}` entry per pair, so exactly as many entries as the dict has pairs |
| `Dimensions.DimensionsFor` | cloud_watch_client.py:223-225 | `_get_dimensions_as_list`: the stored defaults with the normalised call-time dimensions laid over them, as a list; no contract of its own, `DimensionsForSpec`, `DimensionsForAscii` and `NoOverrides` state what it returns |
| `Dimensions.DictAsListEntries` | cloud_watch_client.py:227-228 | the `{Name, Value}` list names each key once, in dict order, and holds exactly the dict's bindings |
| `Dimensions.DimensionsForSpec` | cloud_watch_client.py:223-228 | the merged list has distinct names and holds one entry per default or normalised call-time key; the call-time value wins; defaults keep their places and new call-time names follow in call-time order |
| `Dimensions.DimensionsForAscii` | cloud_watch_client.py:223-225 | every dimension name and value sent is pure ASCII when the defaults are |
| `Dimensions.NoOverrides` | cloud_watch_client.py:224 | `None` and `{}` as call-time dimensions both give the defaults alone |
| `Dimensions.MergeExample` | cloud_watch_client.py:223-228 | defaults `{A: 1}` with call-time `{A: 2, B: 3}` give `[A=2, B=3]` |
| `Requests.EffectiveUnit` | cloud_watch_client.py:71 | `unit or self._unit`; no contract of its own, `EffectiveUnitCases` states it |
| `Requests.EffectiveUnitCases` | cloud_watch_client.py:107 | a non-empty call-time unit is sent as given; `None` or "" sends the client's default; the unit sent is empty iff the default is empty and no non-empty unit was given |
| `Requests.FullAlarmName` | cloud_watch_client.py:230-233 | the full alarm name is pure ASCII when the stored namespace is |
| `Requests.FullAlarmNameCollides` | cloud_watch_client.py:230-233 | two alarm names give the same full name exactly when they normalise to the same string |
| `Requests.FullAlarmNameExamples` | cloud_watch_client.py:230-233 | namespace "ns" and name "cpü" give "ns.cpue"; an empty namespace gives "cpue" |
| `Requests.ListingPrefixCoversAlarmNames` | cloud_watch_client.py:158-160 | with a non-empty namespace the listing prefix is `namespace + "."`, and it begins every full alarm name the client builds |
| `Requests.MetricDataRequest` | cloud_watch_client.py:64-74 | the `put_metric_data` request, `{**my_conf, **additional_params}`; its keys are distinct |
| `Requests.MetricDataPrecedence` | cloud_watch_client.py:64-74 | `additional_params` overrides any key, `Namespace` included; otherwise `Namespace` is the client's and `MetricData` is the one datum built; the request has exactly those keys and the extra ones |
| `Requests.AlarmRequest` | cloud_watch_client.py:98-115 | the `put_metric_alarm` request, `{**my_conf, **alarm_config, **additional_params}`; its keys are distinct |
| `Requests.AlarmPrecedence` | cloud_watch_client.py:98-115 | key by key, the alarm request takes `additional_params` over `alarm_config` over the built value |
| `Requests.AlarmRequestFields` | cloud_watch_client.py:98-115 | without overrides, the alarm request carries the full alarm name, the normalised metric name, the merged dimensions, the effective unit and the threshold |
| `Requests.DeleteRequest` | cloud_watch_client.py:133-136 | the `delete_alarms` request, `{**dict(AlarmNames=[full_alarm_name]), **alarm_config}`; its keys are distinct |
| `Requests.DeleteRequestFields` | cloud_watch_client.py:133-136 | the delete request names the full alarm name unless `alarm_config` sets `AlarmNames`; every `alarm_config` key is sent |
| `Requests.ExistenceQuery` | cloud_watch_client.py:188-192 | the `describe_alarms_for_metric` query of `_alarm_existing`; its keys are distinct |
| `Requests.ExistenceQueryKeys` | cloud_watch_client.py:188-192 | the existence query carries exactly `Namespace`, `MetricName` and `Dimensions`, and no `Unit` |
| `Requests.ListingRequest` | cloud_watch_client.py:154-160 | the first `describe_alarms` request of `get_alarms`; its keys are distinct |
| `Requests.ListingRequestFields` | cloud_watch_client.py:154-160 | the first listing request carries the state and `MaxRecords` 100, sets `AlarmNamePrefix` to `namespace + "."` iff the namespace is non-empty, and sets no `NextToken` |
| `Alarms.MatchingNonEmpty` | cloud_watch_client.py:204 | the filtered list is non-empty iff some alarm's `AlarmName` equals the full name exactly |
| `Alarms.ExistenceCheck` | cloud_watch_client.py:193-207 | `_alarm_existing`'s verdict on the query's outcome; no contract of its own, `ExistenceCheckCases` characterises it |
| `Alarms.ExistenceCheckCases` | cloud_watch_client.py:193-207 | the check reports "exists" iff the response lists an alarm of that name; it reports "absent" iff no such alarm is listed or the query failed with exceptions swallowed; it raises iff the query failed with exceptions raised or the response lacks `MetricAlarms` |
| `Alarms.Dispatch` | cloud_watch_client.py:75-87 | swallow-or-raise after one call; no contract of its own, `DispatchPolicy` characterises it |
| `Alarms.DispatchPolicy` | cloud_watch_client.py:75-87 | a failure escapes iff exceptions are raised, as that same failure; with exceptions swallowed the request is returned whatever the outcome |
| `Alarms.SetAlarmRun` | cloud_watch_client.py:89-129 | the calls, result and leftover script of `set_alarm`; no contract of its own, `UpsertDecision` and `CreateIfMissingTwice` characterise it |
| `Alarms.UpsertDecision` | cloud_watch_client.py:89-129 | with `update_if_exists` the only call is one `put_metric_alarm`; without it, the calls are exactly the existence query followed by one `put_metric_alarm` iff the check reports the alarm absent, `None` is returned iff the check reports it present, and a raised check ends the call; whenever the alarm is created the result is the merged request, or the put's failure when exceptions are raised (a swallowed failure still returns the request) |
| `Alarms.CreateIfMissingTwice` | cloud_watch_client.py:89-129 | two `set_alarm` calls, where the second query sees the alarm the first created, issue exactly one creation, and the second returns `None` |
| `Alarms.ListPages` | cloud_watch_client.py:161-168 | the `describe_alarms` loop from a given request on; no contract of its own, `ListPagesRequests`, `ListPagesEnd`, `ListPagesAlarms` and `TwoPages` characterise it |
| `Alarms.ListPagesRequests` | cloud_watch_client.py:161-168 | the loop sends the first request, then after each page that names a token the previous request with `NextToken` set to that token; the page answering the last request names no token |
| `Alarms.ListPagesEnd` | cloud_watch_client.py:164-174 | the loop ends at the first page without a token (no failure), or at the first failure, which it reports; the rest of the script is untouched |
| `Alarms.ListPagesAlarms` | cloud_watch_client.py:164-166 | the loop consumes at least one outcome of a non-empty script and returns the in-order concatenation of the alarms of every answered page it consumed |
| `Alarms.ListPagesStep` | cloud_watch_client.py:164-168 | one turn of the loop: a failure or a page without a token ends it, and a page with a token moves on to the request carrying that token |
| `Alarms.TwoPages` | cloud_watch_client.py:161-168 | a page naming a token followed by a page without one gives two requests, the second carrying the token, and both pages' alarms in order, with no failure and nothing left over |
| `Service.CloudWatchService.Invoke` | cloud_watch_client.py:76 | an API call takes the next scripted outcome and is appended to the call log |
| `Client.CloudWatchClient.constructor` | cloud_watch_client.py:22-48 | the stored namespace and default dimensions are normalised; `alarm_config`, unit and flags are kept; the debug flag picks "af-south-1" over "eu-central-1"; the stored namespace and dimensions are pure ASCII with distinct dimension names |
| `Client.CloudWatchClient.GetDimensionsAsList` | cloud_watch_client.py:223-225 | returns the merged dimension list; every name and value in it is pure ASCII |
| `Client.CloudWatchClient.SubmitValue` | cloud_watch_client.py:51-87 | issues one `put_metric_data` with the merged request; returns that request unless the call failed and exceptions are raised |
| `Client.CloudWatchClient.AlarmExisting` | cloud_watch_client.py:184-207 | issues one `describe_alarms_for_metric` with the existence query and returns the check's verdict on its outcome |
| `Client.CloudWatchClient.SetAlarm` | cloud_watch_client.py:89-129 | issues the calls and returns the result of the upsert rule, over the alarm request with its precedence |
| `Client.CloudWatchClient.DeleteAlarm` | cloud_watch_client.py:131-150 | issues one `delete_alarms` for the full alarm name with `alarm_config` laid over it; returns the request unless the call failed and exceptions are raised |
| `Client.CloudWatchClient.GetAlarms` | cloud_watch_client.py:152-180 | issues the listing's `describe_alarms` requests in order; returns the alarms collected, which after a swallowed failure are those of the pages before it, or the failure when exceptions are raised |

## Left out

- Logging (`_get_logger`, every `logger.info` and `logger.exception` call) and the `logger` argument: output only, with no effect on results.
- Constructing the boto3 client, the credentials arguments and the shared `_client` class attribute: these are foreign library calls. The model keeps only the region the debug flag selects.
- The CloudWatch wire format, what CloudWatch does with a request, and `ResponseMetadata.RequestId`. Each API call is an abstract operation that returns a response or a failure. The request id is only logged.
- The metric value and the threshold are passed through unread. `Opaque` stands for values the model does not interpret, such as floats.
- `_dict_as_list`'s `key_name` parameter: every caller passes `'Name'`, so the model fixes it.
- Python's `TypeError` for non-string keys in `additional_params` when it is spread as keyword arguments is not modelled.
- A `MetricAlarms` entry that is present but `None` in a `describe_alarms` page is not modelled. An absent entry is modelled, and counts as `[]`.
- Client.CloudWatchClient.GetAlarms: the collaborator's script is finite, and once it is used up every further call fails. A real service that returned tokens forever would keep the source's loop running. The model cannot express that non-termination.
- Concurrency and transport timeouts: the source has none of its own.

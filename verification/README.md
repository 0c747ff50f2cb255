# Placement installer model

A Dafny model of how a small Bitrix24 CRM integration registers its widget
in the host's UI "placements" (embedded tabs) and how it removes them again.
The model covers the decision logic of two scripts:

- `frontend/src/install.js`, the production installer. It derives the
  widget's handler URL from the installer page's URL and builds one batch of
  `placement.bind` commands, one per entry of the fixed `PLACEMENTS` list,
  keyed `placement_bind_<index>`. It then logs every item of the batch
  result as a failure or a success.
- `sample/js/script.js`, the sample flow. Once `user.current` answers, it
  binds the lead detail tab to the suffix-rewritten URL and then calls
  `installFinish`. Its unbind action issues one `placement.unbind` per
  binding that `placement.get` reports, and each request echoes that
  binding's handler.

The host SDK appears only as the data it exchanges. The page URL (or its
origin and path), the batch result, the `placement.get` entries and the
order of callback events are all inputs. The requests the scripts would
issue are the outputs.

Modules:

- `Text` (`text.dfy`): substring occurrence, JavaScript line terminators, and
  the decimal rendering of an index with its inverse parser.
- `HandlerUrl` (`handler_url.dfy`): the two regular-expression rewrites,
  `/index\.html.*$/` and `/index\.html$/`.
- `Batch` (`batch.dfy`): `PLACEMENTS`, batch keys, and batch construction.
- `Reconcile` (`reconcile.dfy`): result classification, for a sequence and
  for a key-to-result map read in any order.
- `Sample` (`sample.dfy`): the sample bind request, the unbind fan-out, and
  the install call trace.
- `Rpc` (`rpc.dfy`): the names of the remote methods called.

The regular expression `/index\.html.*$/` is modelled exactly, line
terminators included. It matches at position `i` when `index.html` occurs
there and no line terminator (`\n`, `\r`, U+2028, U+2029) follows it. The
first such position wins, because the pattern has no `g` flag. For a URL on
a single line, this is simply the first occurrence of `index.html`.
Idempotence is proved for every string, with no single-line assumption.

## Notes on the scripts

- Each placement spec carries only a placement and a title. The description
  is one constant shared by all commands.
- The unbind action does not filter: every reported binding is unbound.
- The unbind title, `Виджет`, differs from the bound title, `Виджет24`. The
  code sends these constants as they are, and the model keeps them.
- `callBatch` receives an array whose elements carry a `key` field. How the
  host SDK keys the results is not visible. The result is modelled as a map
  from key to item result, enumerated in an order the host chooses, and
  items are correlated to specs only through the key.

## Model

| member | source | states |
|---|---|---|
| Text.Decimal | frontend/src/install.js:26 | the index renders as a canonical decimal: non-empty, digits only, no leading zero, at least two digits from 10 on |
| Text.DecimalRoundTrip | frontend/src/install.js:26 | parsing the rendered index gives the index back |
| Text.ParseDecimalRoundTrip | frontend/src/install.js:26 | every string the parser accepts is the rendering of its value, so each index has exactly one textual form |
| Text.DecimalInjective | frontend/src/install.js:26 | distinct indices render to distinct strings |
| HandlerUrl.FirstMatchFrom | frontend/src/install.js:21 | returns the leftmost position where `/index\.html.*$/` matches, or reports that it matches nowhere |
| HandlerUrl.DeriveWidgetUrl | frontend/src/install.js:20-23 | the URL is unchanged exactly when the pattern matches nowhere; otherwise the result ends in `widget.html` and is at most one character longer |
| HandlerUrl.DeriveReplacesFromFirstOccurrence | frontend/src/install.js:20-23 | on a single-line URL, everything from the first `index.html` to the end, query and fragment included, becomes `widget.html` |
| HandlerUrl.DeriveWithoutEntryFileIsIdentity | frontend/src/install.js:20-23 | a URL without `index.html` is returned unchanged |
| HandlerUrl.NoMatchAfterRewrite | frontend/src/install.js:20-23 | the rewritten URL offers the pattern no match anywhere |
| HandlerUrl.DeriveIdempotent | frontend/src/install.js:20-23 | deriving twice gives the same URL as deriving once, for every input string |
| HandlerUrl.DeriveAfterDirectory | frontend/src/install.js:20-23 | a single-line directory that does not itself contain `index.html`, then `index.html`, then any single-line query: the directory is kept and `widget.html` replaces the rest |
| HandlerUrl.DeriveDropsQuery | frontend/src/install.js:20-23 | `/app/index.html?x=1` yields `/app/widget.html` |
| HandlerUrl.ReplaceIndexSuffix | sample/js/script.js:3 | a string ending in `index.html` keeps everything before that suffix and ends in `widget.html`; any other string is unchanged |
| HandlerUrl.SuffixPatternIsEndsWith | sample/js/script.js:3 | `/index\.html$/` matches exactly when the string ends in `index.html` |
| HandlerUrl.ReplaceIndexSuffixIdempotent | sample/js/script.js:3 | a second suffix rewrite changes nothing |
| HandlerUrl.VariantsAgreeOnBarePath | sample/js/script.js:3 | on a single-line path whose only `index.html` is its suffix, the two rewrites agree |
| Batch.BindKey | frontend/src/install.js:26 | every key starts with `placement_bind_` and has at least one character after it |
| Batch.KeyRoundTrip | frontend/src/install.js:26 | the index can be read back from its key |
| Batch.KeyIndexSound | frontend/src/install.js:26 | every key from which an index is read back is the key of that index |
| Batch.BindKeyInjective | frontend/src/install.js:26 | distinct indices give distinct keys |
| Batch.BuildBatch | frontend/src/install.js:25-34 | one command per spec; command `i` reads back index `i` from its key, copies spec `i`'s placement and title, and carries `placement.bind`, the shared handler and the constant description |
| Batch.BatchKeysDistinct | frontend/src/install.js:25-26 | the keys of a batch are pairwise distinct |
| Batch.SpecForKey | frontend/src/install.js:25-34 | a key leads to the spec at the index it encodes, and to nothing when no spec of the batch has that key |
| Batch.BatchCorrelatesByKey | frontend/src/install.js:25-34 | each command's key leads back to exactly the spec the command was built from |
| Batch.FixedPlacementsDistinct | frontend/src/install.js:3-16 | the fixed list has three entries with pairwise distinct placements |
| Batch.InstallBatch | frontend/src/install.js:18-34 | the installer's batch has one command per fixed placement; command `i` carries placement `i`, the handler derived from the page URL, and a key that reads back `i` |
| Batch.InstallBatchShape | frontend/src/install.js:3-34 | the installer's batch has 3 commands with distinct keys `placement_bind_0` to `_2`; command `i` binds the `i`-th fixed placement to the one derived handler |
| Batch.SingleSpecScenario | frontend/src/install.js:20-34 | a single deal-tab spec installed from `/app/index.html?x=1` gives one command keyed `placement_bind_0` with handler `/app/widget.html` |
| Batch.InstallOnHandlerUrlIsStable | frontend/src/install.js:18-34 | installing from the derived handler URL itself builds the same batch |
| Reconcile.Classify | sample/js/script.js:10-13 | an item goes to the error branch exactly when it carries an error descriptor, which is what gets logged; otherwise its data is logged |
| Reconcile.ReconcileAll | frontend/src/install.js:38-44 | one log entry per item, and entry `i` is the classification of item `i` alone |
| Reconcile.CountsPartition | frontend/src/install.js:38-44 | failures plus successes equal the number of items logged |
| Reconcile.ReconcileAppend | frontend/src/install.js:38-44 | reconciling a concatenation is the concatenation of the reconciliations, so a failure does not affect later items |
| Reconcile.OneFailureAmongSuccesses | frontend/src/install.js:38-44 | one failing item among n successes logs exactly one failure and n successes |
| Reconcile.NoErrorsNoFailures | frontend/src/install.js:38-44 | items without error descriptors log no failure |
| Reconcile.ReconcileBatch | frontend/src/install.js:36-44 | for a batch result read in any enumeration order of its keys, one entry per key, each the classification of that key's item |
| Reconcile.FailedCountsErrorKeys | frontend/src/install.js:38-44 | the failures logged over distinct keys are the keys whose items carry an error |
| Reconcile.BatchCounts | frontend/src/install.js:36-44 | in any enumeration order, the failures logged equal the number of keys with an error, and the successes equal the rest |
| Sample.SampleHandlerUrl | sample/js/script.js:3 | an origin and path ending in `index.html` keep everything before that suffix and end in `widget.html`; any other origin and path are used unchanged |
| Sample.BindRequest | sample/js/script.js:5-9 | the bind call is `placement.bind` with placement `CRM_LEAD_DETAIL_TAB`, title `Виджет24`, and the derived handler |
| Sample.BindRequestHandler | sample/js/script.js:3-9 | the bind request's placement, title and method are the constants; its handler is the origin and path with a trailing `index.html` replaced by `widget.html`, and otherwise the origin and path unchanged; a second rewrite leaves it unchanged |
| Sample.UnbindFor | sample/js/script.js:26-30 | the unbind call for a binding echoes that binding's handler, under `placement.unbind`, `CRM_LEAD_DETAIL_TAB` and title `Виджет` |
| Sample.UnbindRequests | sample/js/script.js:24-33 | one unbind request per reported binding, in order; request `j` echoes entry `j`'s handler and carries the constant placement and title |
| Sample.UnbindEchoesHandlers | sample/js/script.js:25-29 | the handlers sent are exactly the handlers reported, in the same order |
| Sample.UnbindRequestsAppend | sample/js/script.js:25-33 | each binding is unbound on its own: requests for a concatenation of reports are the concatenation of the requests |
| Sample.EveryEntryUnbound | sample/js/script.js:25-33 | every reported binding is unbound, whatever placement it reports |
| Sample.Advance | sample/js/script.js:1-16 | the install flow never goes back and moves at most one step; it moves exactly when the install callback runs first or `user.current` answers while awaited |
| Sample.Issued | sample/js/script.js:1-16 | a callback issues calls exactly when it moves the flow on, and the calls it issues extend those of the old phase to those of the new one |
| Sample.PhaseAfter | sample/js/script.js:1-16 | after n events the flow has moved at most n steps, and a further event never moves it back |
| Sample.Trace | sample/js/script.js:1-18 | the calls issued so far are none, then `user.current`, then `user.current`, bind, `installFinish`, according to the phase reached |
| Sample.PhaseLeavesSdkWait | sample/js/script.js:1-2 | the flow leaves its initial phase exactly when the install callback has run |
| Sample.FinishedHasAnswer | sample/js/script.js:1-16 | a finished flow has seen `user.current` answer after the install callback ran |
| Sample.AnswerFinishes | sample/js/script.js:1-16 | once `user.current` has answered after the install callback, the flow has finished |
| Sample.PhaseFinished | sample/js/script.js:1-16 | the flow finishes exactly when `user.current` answers after the install callback ran |
| Sample.InstallOrder | sample/js/script.js:1-18 | the bind, then `installFinish`, are issued once and only after the `user.current` answer; before that, at most the `user.current` call is issued, and it is issued exactly when the install callback has run |

## Left out

- The SDK handshake (`initBX24`, `BX24.install`, `BX24.init`) is left out. It is host plumbing; the model starts once the client is ready, and in the sample trace the install callback is an input event.
- The RPC transport (`callBatch`, `callMethod`, `placement.get`) is left out. Responses are inputs and requests are outputs.
- The host's upsert-by-(placement, handler) bind semantics are left out. They are the host's contract and are not visible in these scripts.
- Completion order of the concurrent unbind callbacks is left out. It is concurrency, and the code promises no order. Their `console.log(result)` is unconditional and classifies nothing.
- The order in which `Object.values` enumerates the batch result is not fixed. It is a parameter: any repetition-free enumeration of the keys.
- `console` output is left out. Logging is modelled as the classification it records.
- An error from `placement.get` is left out. The code calls `result.data().forEach` without checking `error()`. The model takes the reported entries as given.
- The DOM button listener (sample/js/script.js:21-23) is left out. It only triggers the unbind action.
- `frontend/src/widget.js` is left out. It is Vue/Vuetify setup and mounting, and it only passes `placement.info()` through.
- `./utils/bx24` is not part of this model.
- Sample.InstallOrder: "issued once" relies on the host SDK running the install callback once and answering `user.current` once. A repeated event is ignored by the model; if the host ran the install callback twice, the script would call `user.current` and bind again.
- `window.location` is a plain string, and `origin` and `pathname` are plain strings. URL parsing is the browser's.

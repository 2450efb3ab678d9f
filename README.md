# Required-labels admission policy, modelled in Dafny

This project models the admission decision of a Kubewarden policy written in Rust
(`validate` in `src/lib.rs`). The policy receives an admission request for an object.
If the object cannot be read as a Pod, the policy accepts it (fail-open). If it is a
Pod, the policy builds the list of required label keys the Pod lacks. The required keys
are hard-coded, in this order: `owner`, `cost-center`. The policy rejects the Pod when
that list is non-empty and accepts it otherwise. The rejection message renders the list
with Rust's `{:?}` Debug format:

- one missing key: `pod label ["owner"] is required`;
- two missing keys: `pod labels ["owner", "cost-center"] are required`.

Only the presence of a key is checked. Label values are never looked at.

Files:

- `wrappers.dfy`: module `Wrappers`, an `Option` type standing for Rust's `Option`.
- `debug_format.dfy`: module `DebugFormat`, the Debug rendering of a list of strings
  that contain no character Debug would escape.
- `policy.dfy`: module `Policy`.
  - The abstract input `AdmissionObject = NotAPod | Pod(labels: Option<map<string, string>>)`.
    It stands for the result of deserializing the request object as a Pod.
  - The output `Decision = Accept | Reject(message)`.
  - The specification functions `AbsentKeys`, `MissingLabels`, `RejectionMessage`,
    `DecideWith` and `Decide`.
  - The imperative `CollectMissing`. Like the source, it assigns the whole required list
    when the Pod has no labels map. Otherwise it appends each absent key in a loop.
    It is proved equal to `MissingLabels`.
  - `Validate`, the request handler after envelope parsing, proved equal to `Decide`.
  - Lemmas about all of the above.

`src/settings.rs:10-18` declares a `required_labels` setting: an optional list of entries,
each with an optional `name` and an optional `allowed_values`. `validate` never reads the settings: the required
keys are the constant at `src/lib.rs:21`, whatever the settings say.

Only presence is checked (`src/lib.rs:33`). The messages use the Debug rendering of a
`Vec<String>` (`src/lib.rs:42`, `src/lib.rs:44`).

## Model

| member | source | states |
|---|---|---|
| `Policy.AbsentKeys` | src/lib.rs:31-37 | the missing list is no longer than the required list, and every key in it is required and absent from the Pod's labels |
| `Policy.CollectMissing` | src/lib.rs:25-38 | the list built step by step equals `MissingLabels`: the whole required list when the Pod has no labels map, otherwise the required keys the map lacks, in required order |
| `Policy.RejectionMessage` | src/lib.rs:41-45 | one missing key X gives `pod label ["X"] is required`; two missing keys X, Y give `pod labels ["X", "Y"] are required` |
| `Policy.DecideWith` | src/lib.rs:23-53 | the decision is Accept exactly when the object is not a Pod or the missing list is empty |
| `Policy.Validate` | src/lib.rs:19-54 | the request handler, after envelope parsing, returns `Decide` of its input, and accepts every object that is not a Pod |
| `Policy.MissingLabels` | src/lib.rs:27-37 | the missing list is no longer than the required list, holds only required keys, and, when the Pod has a labels map, only keys that map lacks |
| `Policy.Decide` | src/lib.rs:21-53 | with the hard-coded keys, the decision is Accept exactly when the object is not a Pod or its labels map holds both `owner` and `cost-center` |
| `Policy.SingularMessageText` | src/lib.rs:41-42 | the singular `format!` with a one-key Debug list is `pod label ["X"] is required` |
| `Policy.PluralMessageText` | src/lib.rs:43-44 | the plural `format!` with a two-key Debug list is `pod labels ["X", "Y"] are required` |
| `Policy.RequiredLabelsRenderable` | src/lib.rs:21 | both hard-coded keys print unchanged in Debug rendering, so the plain quoting used here is exact for them |
| `Policy.AbsentKeysMembership` | src/lib.rs:31-37 | a key is reported missing if and only if it is required and the labels map has no entry for it |
| `Policy.AbsentKeysIsSubsequence` | src/lib.rs:32-36 | the missing list keeps the order of the required list |
| `Policy.AbsentKeysDistinct` | src/lib.rs:32-36 | a required list without repeats gives a missing list without repeats |
| `Policy.AbsentKeysPresenceOnly` | src/lib.rs:33 | two label maps that hold the same required keys give the same missing list, whatever their values and other keys |
| `Policy.AbsentKeysOfEmpty` | src/lib.rs:31-37 | an empty labels map misses every required key, in order |
| `Policy.NoLabelsLikeEmptyLabels` | src/lib.rs:27-37 | a Pod with no labels map and a Pod with an empty one get the same missing list and the same decision |
| `Policy.MissingRequiredLabels` | src/lib.rs:21-37 | with the hard-coded keys, no labels map gives `["owner", "cost-center"]`; otherwise the list is "owner" if absent followed by "cost-center" if absent |
| `Policy.MissingLabelsShape` | src/lib.rs:21-37 | with the hard-coded keys, the missing list has at most two entries and no repeats, follows the required order, and holds exactly the required keys the Pod lacks |
| `Policy.OwnerMessage` | src/lib.rs:41-42 | the rejection message for the missing list `["owner"]` is `pod label ["owner"] is required` |
| `Policy.CostCenterMessage` | src/lib.rs:41-42 | the rejection message for the missing list `["cost-center"]` is `pod label ["cost-center"] is required` |
| `Policy.PluralMessage` | src/lib.rs:43-44 | the rejection message for the missing list `["owner", "cost-center"]` is `pod labels ["owner", "cost-center"] are required` |
| `Policy.DecisionTable` | src/lib.rs:19-54 | the full decision for every input: accept a non-Pod; for a Pod, accept when both keys are present, else reject with the message naming exactly the absent keys; a Pod with no labels map gets the plural message |
| `Policy.AcceptsWhenBothKeysPresent` | src/lib.rs:40-50 | a Pod carrying both `owner` and `cost-center` is accepted, whatever their values |
| `Policy.ValuesDoNotMatter` | src/lib.rs:33 | Pods whose label maps have the same keys get the same decision |
| `Policy.OtherKeysDoNotMatter` | src/lib.rs:32-36 | adding or changing a label whose key is not required never changes the decision |
| `Policy.MissingLabelsCases` | src/lib.rs:21-37 | with the hard-coded keys, the missing list is one of `[]`, `["owner"]`, `["cost-center"]`, `["owner", "cost-center"]` |
| `Policy.RejectionMessagesDistinct` | src/lib.rs:41-45 | the three possible rejection messages differ from one another |
| `Policy.MessageNumberMark` | src/lib.rs:41-44 | a one-key message has a space at index 9 (`pod label `) and a two-key message an `s` (`pod labels `) |
| `Policy.SingularMessageInjective` | src/lib.rs:41-42 | two one-key messages are equal only when their keys are equal |
| `Policy.PluralMessageInjective` | src/lib.rs:43-44 | two two-key messages are equal only when both keys are equal, in order |
| `Policy.RejectionMessageInjective` | src/lib.rs:41-45 | for missing lists of one or two renderable keys, equal messages mean equal lists |
| `Policy.DecisionNamesMissing` | src/lib.rs:40-47 | Pods with different missing lists get different decisions, because the rejection message determines the missing list |
| `DebugFormat.QuotedNoInnerQuote` | src/lib.rs:42 | the only double quotes in the rendering of a string that needs no escaping are the two that delimit it |
| `DebugFormat.QuotedInjective` | src/lib.rs:42 | two strings with the same quoted rendering are equal |
| `DebugFormat.DebugListOneInjective` | src/lib.rs:42 | two one-item lists with the same rendering hold the same item |
| `DebugFormat.DebugListTwoInjective` | src/lib.rs:44 | two two-item lists with the same rendering hold the same items, in order |
| `DebugFormat.DebugListTwoShape` | src/lib.rs:44 | a two-item list renders as the two quoted items joined by `, ` between square brackets |
| `DebugFormat.JoinQuoted` | src/lib.rs:42-44 | the joined items are empty exactly for the empty list, and otherwise begin and end with a double quote |
| `DebugFormat.DebugList` | src/lib.rs:42-44 | a list renders between square brackets, and exactly the empty list renders as `[]` |
| `DebugFormat.JoinQuotedSnoc` | src/lib.rs:42-44 | appending an item to a non-empty list appends `, ` and the quoted item to the rendering |
| `DebugFormat.DebugListOne` | src/lib.rs:42 | a one-item list renders as `["x"]` |
| `DebugFormat.DebugListTwo` | src/lib.rs:44 | a two-item list renders as `["a", "b"]` |

## Left out

- Host registration (`wapc_init`, `register_function`, `src/lib.rs:12-17`): foreign calls into the waPC runtime.
- Parsing the request envelope (`ValidationRequest::new(payload)?`, `src/lib.rs:20`): byte and JSON decoding in a foreign library. When it fails, `validate` returns an error instead of a decision; the model starts after this step.
- Deserializing the object as a Pod (`serde_json::from_value`, `src/lib.rs:23`): replaced by the abstract input `NotAPod | Pod(labels)`.
- Encoding the response (`accept_request`, `reject_request`, `src/lib.rs:47`, `src/lib.rs:50`, `src/lib.rs:52`) and `protocol_version_guest`: SDK code. The decision is a plain datatype. It has no slot for a mutated object, so no outcome can carry one.
- `src/settings.rs`: its `validate` only logs and returns success, and `validate` in `src/lib.rs` never reads the settings.
- DebugFormat.DebugList: requires every item to be printable ASCII without `"` or `\`, because general Rust Debug escaping is not modelled. The only strings rendered are the two fixed keys, which meet this (`Policy.RequiredLabelsRenderable`).
- Policy.DecideWith: requires its required keys to meet the same condition, for the same reason.
- Logging.

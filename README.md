# argocd-notifier: the monitoring cycle, modelled in Dafny

argocd-notifier polls the Argo CD applications endpoint. It keeps a snapshot
of every application's sync and health status, and it sends one chat message
for each application that is new, changed or deleted since the previous poll.
The snapshot is persisted as the `spec.state` of a `Notifier` custom object
in the `argocd` namespace, so it survives a restart.

This project models the core of `notifier.py`:

- **`PyJson`** (`json.dfy`): the Python values the program handles.
  - Parsed JSON documents, and the dicts the program builds from them.
  - Python semantics that matter here: subscripting a dict, truthiness,
    hashability, and `key in value` on dicts, lists and strings.
  - Subscripting anything but a dict, or a missing key, raises.
- **`Inventory`** (`inventory.dfy`): building the current state of the inventory.
  - `get_applications`: how the HTTP reply is validated.
  - Iterating over whatever `items` turned out to be.
  - The dict comprehension that builds `current_states`: name to
    `{sync_status, health_status}`, in insertion order, with the last
    duplicate winning.
  - A missing field, or a name that cannot be a dict key, raises.
- **`NotifierStore`** (`store.dfy`): the store.
  - `load_state_from_crd` and `save_state_to_crd` over an abstract store.
  - The store is a map from object names to objects. Each call is served,
    or refused with an `ApiException(status)` or another error, or applied by
    the server with its reply lost, so that the client raises a transport
    error all the same.
- **`Reconcile`** (`reconcile.dfy`): the diff.
  - What the loop over `current_states.items()` sends, and whether it raises
    while building a change message.
  - The set of deleted names.
  - A reference definition (`Expected`) of which messages a cycle must send:
    - one `Added` for each unknown name;
    - one `Changed` for each known name whose record differs;
    - one `Removed` for each deleted name.
  - Proofs that a completed cycle sends exactly those messages, each name
    once, with every removal after every other message.
- **`Monitor`** (`monitor.dfy`): the monitoring loop.
  - A class holding the mutable `saved_states` snapshot, the store's
    objects, and every message handed to the messaging endpoint.
  - `Cycle` performs one pass of the `while True` loop and returns the delay
    that follows: 30 after a completed pass, 60 after any exception.
  - `Cycle`'s contract covers:
    - which stage raised;
    - that an exception before the commit leaves the snapshot and the store
      untouched;
    - that from the commit on, the snapshot is exactly the current map;
    - which messages were sent.

The environment is abstracted as inputs to the model:

- **The applications endpoint**: what it replied (`FetchReply`).
- **The messaging endpoint**: the function `sink` says, for the k-th message
  of a cycle, whether the endpoint answered with some status or the request
  raised.
- **The API server**: how it treats each call (`Call`): served, refused,
  or applied with the reply lost.

## Model

| member | source | states |
|---|---|---|
| PyJson.Index | notifier.py:122-124 | `j[key]` yields a value exactly when `j` is a dict holding that key; otherwise the subscript raises |
| PyJson.Then | notifier.py:122-124 | A chain of subscripts such as `app["metadata"]["name"]` yields a value only when every earlier step yielded a dict holding the next key |
| PyJson.Contains | notifier.py:97 | `key in data`: on a dict it tests the keys. It raises exactly when `data` is neither a dict, nor a list, nor a string |
| Inventory.GetApplications | notifier.py:80-101 | Outcomes of `get_applications`: <br>• the request raises → the call raises <br>• non-200 status → `[]` <br>• unparseable body → `[]` <br>• JSON object without "items" → `[]` <br>• JSON object with "items" → `data["items"]` unchanged <br>• any other document raises exactly when `"items" in data` raises or holds <br>Whatever is returned is `[]` or exactly `data["items"]` |
| Inventory.Elements | notifier.py:126 | What `for app in current_apps` visits: <br>• a list → its elements <br>• a string → its one-character strings, in order <br>• a dict → its keys; a non-empty dict fails at the first subscript, an empty one visits nothing <br>• null, a boolean or a number → raises |
| Inventory.StatusRecord | notifier.py:122-125 | The value stored per application has exactly the keys `sync_status` and `health_status`, holding the two statuses |
| Inventory.Entry | notifier.py:122-125 | One element of the comprehension raises exactly when `metadata.name`, `status.sync.status` or `status.health.status` is missing, or when the name cannot be a dict key. Otherwise its key is the name and its value is the status record of the two statuses |
| Inventory.Build | notifier.py:121-127 | The comprehension's result is a well-formed ordered dict (each name listed once, every key listed) whose every value is a `{sync_status, health_status}` record |
| Inventory.BuildSucceeds | notifier.py:121-127 | The comprehension raises exactly when some element lacks a field or has an unhashable name |
| Inventory.BuildKeys | notifier.py:121-127 | The keys of `current_states` are exactly the names of the fetched applications |
| Inventory.LastWins | notifier.py:121-127 | With duplicate names, a name maps to the status of its last occurrence in the list |
| Inventory.InsertValid | notifier.py:121-127 | Assigning a key of an ordered dict keeps it well formed and adds exactly that key |
| Inventory.CurrentStates | notifier.py:120-127 | The inventory step of a cycle raises exactly when fetching, iterating over the items or one element raises. Otherwise `current_states` is a well-formed ordered dict of status records |
| Inventory.FailedFetchLooksEmpty | notifier.py:87-101 | Each of these yields an empty `current_states`, indistinguishable from an empty inventory: <br>• non-200 status <br>• unparseable body <br>• object without "items" |
| NotifierStore.GetObject | notifier.py:34-40 | The object is returned exactly when the call is served and the object exists. A served call for a missing object answers 404 |
| NotifierStore.ReplaceObject | notifier.py:56-63 | The replace succeeds exactly when the call is served and the object exists. A served call for a missing object answers 404. The store changes only when the call reached the server and the object exists, and then only that object becomes the body |
| NotifierStore.CreateObject | notifier.py:66-73 | The create succeeds exactly when the call is served and the object is absent. The store changes only when the call reached the server and the object is absent, and then only by adding the body |
| NotifierStore.Body | notifier.py:49-54 | The body written has exactly the keys `apiVersion`, `kind`, `metadata` and `spec`. Its `metadata.name` is the object name and its `spec.state` is the state |
| NotifierStore.LoadState | notifier.py:32-46 | Outcomes of `load_state_from_crd`: <br>• missing object, or a 404 → `{}` <br>• any other API error propagates, and so does a lost reply <br>• existing object → raises exactly when its `spec` is missing or not a dict; otherwise returns `spec.state`, or `{}` when `state` is absent |
| NotifierStore.SaveState | notifier.py:48-75 | Outcomes of `save_state_to_crd`: <br>• success leaves the object equal to the body built from the state, and touches nothing else <br>• a save that raises leaves the store unchanged, unless a call was applied and its reply lost; then the object is the body all the same <br>• against a server that serves both calls, it always succeeds <br>• it succeeds exactly when the replace finds the object, or the replace answers 404 on an absent object and the create is served <br>• the create is tried only after a 404 |
| NotifierStore.SaveThenLoad | notifier.py:32-75 | After a successful save, a load returns exactly the saved state |
| Reconcile.Classify | notifier.py:131-139 | What the loop body does for one application: <br>• "new" exactly when `saved_states.get(name)` is missing or falsy, carrying the current record <br>• nothing exactly when the saved record is truthy and equal <br>• "changed" otherwise, carrying the differing old and new records <br>• it raises exactly when a changed record lacks a key the message subscripts <br>Every message is about that application and none is a removal |
| Reconcile.Extend | notifier.py:130-139 | One more turn of the loop adds at most one message and keeps the earlier ones |
| Reconcile.AnnounceStops | notifier.py:130-139 | Once building a change message has raised, no later application adds a message |
| Reconcile.AnnounceGrows | notifier.py:130-139 | The messages for a prefix of `current_states` begin the messages for a longer prefix |
| Reconcile.AnnounceFacts | notifier.py:130-139 | The loop over the current applications: <br>• gets through exactly when no change message raises <br>• sends exactly the Added/Changed verdicts <br>• never sends a removal <br>• never names an application twice |
| Reconcile.AnnounceOk | notifier.py:130-139 | The loop over the current applications gets through exactly when building no change message raises |
| Reconcile.AnnounceEvents | notifier.py:130-139 | Its messages are about visited applications and none is a removal. When it gets through, they are exactly the Added/Changed verdicts |
| Reconcile.AnnounceDistinct | notifier.py:130-139 | Since dict keys are distinct, the loop never names an application twice |
| Reconcile.Deleted | notifier.py:142 | A name is deleted exactly when it is in the saved snapshot and not in `current_states` |
| Reconcile.PlanIsExact | notifier.py:129-144 | A completed cycle's messages are exactly `Expected`: <br>• one "new" per unknown or falsy-saved name, with its status <br>• one "changed" per known name whose record differs, with the old and new records <br>• nothing for an equal record <br>• one "removed" per saved name absent from the current map <br>No name is repeated, and every removal comes after every other message |
| Reconcile.AnnounceAgainstItself | notifier.py:130-139 | Against a snapshot equal to the current map of status records, the loop sends nothing and does not raise |
| Reconcile.SelfQuiet | notifier.py:131-134 | A status record compared with itself is truthy and equal, so no message is sent for it |
| Reconcile.Idempotent | notifier.py:130-147 | Once the snapshot is the current map, the only complete message list for the same inventory is the empty one |
| Reconcile.EmptyInventoryRemovesAll | notifier.py:141-144 | With no current applications, a completed cycle sends one removal per saved name and nothing else |
| Monitor.Monitor.constructor | notifier.py:115 | A monitor starts with the loaded snapshot and no messages sent |
| Monitor.Monitor.Start | notifier.py:115-116 | The snapshot is loaded once. A load that raises stops the monitor before the loop; otherwise the snapshot is the loaded state |
| Monitor.Monitor.Cycle | notifier.py:118-153 | One pass of the loop: <br>• the delay is 30 after a completed pass and 60 after any exception <br>• the fetch stage raises exactly when fetching or the comprehension raises <br>• a non-dict snapshot raises before any message <br>• any exception before line 147 leaves the snapshot and the store unchanged <br>• from the commit on, the snapshot is exactly the current map and the store is the result of saving it, even when the save raises <br>• the messages sent are as `Reported` says for the stage reached |
| Monitor.Monitor.Process | notifier.py:129-153 | The same promises as `Cycle`, from a built `current_states` on |
| Monitor.Monitor.NotifyAll | notifier.py:129-144 | The two message loops together end Completed, RenderFailed or DeliveryFailed, and the messages they sent are as `Reported` says |
| Monitor.Monitor.AnnounceCurrent | notifier.py:130-139 | The loop over `current_states.items()` sends exactly the messages of the specification `Announce`, in order. It stops at the first render fault, or at the first delivery that raises; a delivery that answers with any status lets the loop continue. When a delivery raised, the messages sent are a prefix of those the whole loop would send |
| Monitor.Monitor.AnnounceRemoved | notifier.py:141-144 | The loop over `deleted_apps` sends one removal per deleted name, each name once, in any order. It stops at the first delivery that raises; an answered delivery continues |
| Monitor.Monitor.AnnounceDeleted | notifier.py:141-144 | After the first loop got through, the removal loop completes a full message list, or the beginning of one that ends at the delivery that raised |
| Monitor.Monitor.Persist | notifier.py:148 | The store becomes what `save_state_to_crd` of the snapshot makes of it |
| Monitor.RepeatIsSilent | notifier.py:130-148 | A pass against the snapshot it committed itself neither raises on a message nor sends one |
| Monitor.FailedFetchRemovesAll | notifier.py:141-147 | After a failed fetch, a pass that commits has sent one removal per saved application and nothing else, and the snapshot it commits is empty |
| Monitor.RemovalsReported | notifier.py:141-144 | Removal messages for distinct deleted names, appended to the completed first loop's messages, form a full message list, or the beginning of one |

## Left out

- **HTTP and Kubernetes clients** are not modelled: `requests.get`, `requests.post` and `CustomObjectsApi`. Their results are inputs instead: `FetchReply`, `sink`, `Call`.
- **Environment variables, the startup check and the in-cluster configuration** (notifier.py:10-23) are configuration plumbing. The object name is a plain string parameter. The case where `NOTIFIER_RESOURCE_NAME` is unset is not modelled.
- **Printing and `time.sleep`** are not modelled. The delay is returned instead of waited.
- **Message wording** is not modelled: the emoji, the Russian text and the f-string rendering. Events carry the fields the messages show. The only part of rendering that is modelled is that subscripting a malformed saved record raises.
- **The commented-out earlier version** (notifier.py:156-195) is dead code.
- **The infinite `while True` loop** is modelled as `Start` followed by repeated calls of `Cycle`, one call per pass.
- **Two defects are not reproduced literally.**
  - notifier.py:83 subscripts the imported `config` module, so every real fetch raises.
  - notifier.py:106 uses an undefined `TELEGRAM_TOKEN`, so every real delivery raises.
  - The fetch and the delivery are abstract operations that may raise, so both cases are covered: `NoResponse` and `Unreachable`.
- **Python's cross-type numeric equality is not modelled.** In Python `1 == True == 1.0`, and such values share a dict key. Floats are left out too: JSON numbers are integers, and booleans are distinct from them.
- **JSON key stringification is not modelled.** The real API server stores a snapshot with non-string keys with those keys turned into strings. The store here keeps the values as given.
- **Server-side validation of the custom object is not modelled.**
- **A lost reply is the only way a refused-looking call changes the store.** A call refused with an `ApiException` or a transport error is assumed to have changed nothing on the server.
- **Set iteration order for deleted names is not fixed.** Python's order is unspecified, so `AnnounceRemoved` may visit them in any order, and the contracts hold for every order.

/** The snapshot store: one Notifier custom object, addressed by name in the
    "argocd" namespace (group argocd-notifier.example.com, version v1,
    plural notifiers), whose spec.state holds the saved snapshot.
    The Kubernetes API server is abstracted as a map from object names to
    objects, and each call may additionally be refused for reasons the
    store's content does not explain (an API error with some status, or a
    transport failure). */
module NotifierStore {
  import opened PyJson

  /** What a failing call raises: an ApiException carrying an HTTP status,
      or any other error (connection refused, timeout, ...). */
  datatype Failure = ApiException(status: int) | OtherError

  /** How the server treats one call apart from the objects it holds:
      it answers; it refuses with a failure and changes nothing; or it
      applies the call but the answer never reaches the client, which raises
      a transport error (a lost reply). */
  datatype Call = Served | Refused(failure: Failure) | Lost

  datatype Reply = Done(obj: Json) | Error(failure: Failure)

  /** The Notifier objects of the namespace, by name. */
  type Objects = map<string, Json>

  const NotFound: Failure := ApiException(404)
  const Conflict: Failure := ApiException(409)

  /** get_namespaced_custom_object */
  function GetObject(objects: Objects, name: string, call: Call): (r: Reply)
    ensures r.Done? <==> call.Served? && name in objects
    ensures r.Done? ==> r.obj == objects[name]
    ensures call.Served? && name !in objects ==> r == Error(NotFound)
  {
    match call
    case Refused(failure) => Error(failure)
    case Lost => Error(OtherError)
    case Served => if name in objects then Done(objects[name]) else Error(NotFound)
  }

  /** replace_namespaced_custom_object: only an existing object is replaced. */
  function ReplaceObject(objects: Objects, name: string, body: Json, call: Call): (r: (Reply, Objects))
    ensures r.0.Done? <==> call.Served? && name in objects
    ensures r.1 == (if !call.Refused? && name in objects then objects[name := body] else objects)
    ensures call.Served? && name !in objects ==> r.0 == Error(NotFound)
  {
    match call
    case Refused(failure) => (Error(failure), objects)
    case Lost => (Error(OtherError), if name in objects then objects[name := body] else objects)
    case Served =>
      if name in objects then (Done(body), objects[name := body]) else (Error(NotFound), objects)
  }

  /** create_namespaced_custom_object: only an absent object is created. */
  function CreateObject(objects: Objects, name: string, body: Json, call: Call): (r: (Reply, Objects))
    ensures r.0.Done? <==> call.Served? && name !in objects
    ensures r.1 == (if !call.Refused? && name !in objects then objects[name := body] else objects)
  {
    match call
    case Refused(failure) => (Error(failure), objects)
    case Lost => (Error(OtherError), if name !in objects then objects[name := body] else objects)
    case Served =>
      if name !in objects then (Done(body), objects[name := body]) else (Error(Conflict), objects)
  }

  /** The object save_state_to_crd writes. */
  function Body(name: string, state: Json): (r: Json)
    ensures r.JObj? && r.fields.Keys == {JStr("apiVersion"), JStr("kind"), JStr("metadata"), JStr("spec")}
    ensures Then(Then(Some(r), "metadata"), "name") == Some(JStr(name))
    ensures Then(Then(Some(r), "spec"), "state") == Some(state)
  {
    JObj(map[
      JStr("apiVersion") := JStr("argocd-notifier.example.com/v1"),
      JStr("kind") := JStr("Notifier"),
      JStr("metadata") := JObj(map[JStr("name") := JStr(name)]),
      JStr("spec") := JObj(map[JStr("state") := state])
    ])
  }

  /** load_state_from_crd: spec.state of the object, {} when the object has
      no state, {} when the object does not exist (404); any other failure
      propagates, and so does an object without a dict under "spec". */
  function LoadState(objects: Objects, name: string, call: Call): (r: Result<Json>)
    ensures call.Served? && name !in objects ==> r == Ok(JObj(map[]))
    ensures call == Refused(NotFound) ==> r == Ok(JObj(map[]))
    ensures call.Refused? && call.failure != NotFound ==> r.Raised?
    ensures call.Lost? ==> r.Raised?
    ensures r.Ok? && r.value != JObj(map[]) ==> call.Served? && name in objects
    // an existing object: its spec must be a dict, whose "state" (default {}) is the result
    ensures call.Served? && name in objects ==>
      (r.Raised? <==> !(Index(objects[name], "spec").Some? && Index(objects[name], "spec").value.JObj?))
    ensures call.Served? && name in objects && r.Ok? ==>
      r.value == (match Then(Then(Some(objects[name]), "spec"), "state")
                  case Some(state) => state
                  case None => JObj(map[]))
  {
    match GetObject(objects, name, call)
    case Done(obj) =>
      (match Index(obj, "spec")
       case None => Raised
       case Some(spec) =>
         if !spec.JObj? then Raised   // no .get on a value that is not a dict
         else if JStr("state") in spec.fields then Ok(spec.fields[JStr("state")])
         else Ok(JObj(map[])))
    case Error(failure) =>
      if failure == NotFound then Ok(JObj(map[])) else Raised
  }

  /** save_state_to_crd: replace the object, or create it with the same body
      when the replace answers 404; any other failure propagates. Returns
      whether the save returned normally, and the objects afterwards. */
  function SaveState(objects: Objects, name: string, state: Json, replaceCall: Call, createCall: Call)
    : (r: (bool, Objects))
    // on success the object is exactly the body; no other object is touched
    ensures r.0 ==> r.1 == objects[name := Body(name, state)]
    // a save that raises leaves the store as it was, unless a call it made
    // was applied by the server and then lost on the way back
    ensures !r.0 ==> r.1 == objects || r.1 == objects[name := Body(name, state)]
    ensures !r.0 && r.1 != objects ==> replaceCall.Lost? || createCall.Lost?
    // against a server that serves both calls a save always succeeds
    ensures replaceCall.Served? && createCall.Served? ==> r.0
    // exactly when the save succeeds
    ensures r.0 <==>
      || (replaceCall.Served? && name in objects)
      || ((replaceCall.Served? || replaceCall == Refused(NotFound)) && name !in objects && createCall.Served?)
    // the create fallback is taken only on a 404 from the replace
    ensures r.0 && !replaceCall.Served? ==> replaceCall == Refused(NotFound) && createCall.Served?
  {
    var body := Body(name, state);
    var (replaced, afterReplace) := ReplaceObject(objects, name, body, replaceCall);
    match replaced
    case Done(_) => (true, afterReplace)
    case Error(failure) =>
      if failure == NotFound then
        var (created, afterCreate) := CreateObject(afterReplace, name, body, createCall);
        (created.Done?, afterCreate)
      else (false, afterReplace)
  }

  /** What a successful save stores is what the next load returns. */
  lemma SaveThenLoad(objects: Objects, name: string, state: Json, replaceCall: Call, createCall: Call)
    requires SaveState(objects, name, state, replaceCall, createCall).0
    ensures LoadState(SaveState(objects, name, state, replaceCall, createCall).1, name, Served) == Ok(state)
  {
    var after := SaveState(objects, name, state, replaceCall, createCall).1;
    assert after[name] == Body(name, state);
    assert Index(Body(name, state), "spec") == Some(JObj(map[JStr("state") := state]));
  }
}

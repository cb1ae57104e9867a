/** The inventory side of a cycle: validating the reply of the applications
    endpoint (get_applications) and building the name -> status dictionary
    from the fetched list (the comprehension at the top of the cycle). */
module Inventory {
  import opened PyJson

  /** What the applications endpoint gave back. NoResponse: the request itself
      raised (unreachable host, TLS failure, ...). body is None when the
      response text is not valid JSON. */
  datatype FetchReply = NoResponse | Response(status: int, body: Option<Json>)

  /** get_applications: a non-200 status, a body that does not parse, and a
      body without "items" all come back as the empty list; otherwise
      data["items"] is returned as it is. */
  function GetApplications(reply: FetchReply): (r: Result<Json>)
    // whatever comes back is the empty list or exactly data["items"]
    ensures r.Ok? ==>
      r.value == JArr([]) ||
      (reply.Response? && reply.status == 200 && reply.body.Some? &&
       Index(reply.body.value, "items") == Some(r.value))
    // a failed request, a failed status or an unparseable body
    ensures reply.NoResponse? ==> r.Raised?
    ensures reply.Response? && (reply.status != 200 || reply.body.None?) ==> r == Ok(JArr([]))
    // a JSON object with "items" is passed through unchanged, one without is the empty list
    ensures reply.Response? && reply.status == 200 && reply.body.Some? && reply.body.value.JObj? ==>
      r == (match Index(reply.body.value, "items")
            case Some(items) => Ok(items)
            case None => Ok(JArr([])))
    // any other JSON document raises exactly when `"items" in data` raises or holds
    ensures reply.Response? && reply.status == 200 && reply.body.Some? && !reply.body.value.JObj? ==>
      (r.Raised? <==> Contains(reply.body.value, "items") != Ok(false))
  {
    match reply
    case NoResponse => Raised
    case Response(status, body) =>
      if status != 200 then Ok(JArr([]))
      else
        match body
        case None => Ok(JArr([]))
        case Some(data) =>
          match Contains(data, "items")
          case Raised => Raised
          case Ok(present) =>
            if !present then Ok(JArr([]))
            else
              match Index(data, "items")
              case Some(items) => Ok(items)
              case None => Raised   // `data["items"]` on a list or a string
  }

  /** The values `for app in items` visits. A list yields its elements, a
      string its one-character strings. A dict yields its keys, which are
      strings, so a non-empty dict fails at the first `app["metadata"]`;
      null, booleans and numbers are not iterable. */
  function Elements(items: Json): (r: Result<seq<Json>>)
    ensures items.JArr? ==> r == Ok(items.elems)
    ensures items.JStr? ==>
      r.Ok? && |r.value| == |items.s| && (forall i :: 0 <= i < |items.s| ==> r.value[i] == JStr([items.s[i]]))
    ensures items.JObj? ==> (r.Ok? <==> items.fields == map[]) && (r.Ok? ==> r.value == [])
    ensures items.JNull? || items.JBool? || items.JNum? ==> r.Raised?
  {
    match items
    case JArr(elems) => Ok(elems)
    case JStr(s) => Ok(seq(|s|, i requires 0 <= i < |s| => JStr([s[i]])))
    case JObj(fields) => if fields == map[] then Ok([]) else Raised
    case _ => Raised
  }

  function Name(app: Json): (r: Option<Json>) { Then(Then(Some(app), "metadata"), "name") }
  function Sync(app: Json): (r: Option<Json>) { Then(Then(Then(Some(app), "status"), "sync"), "status") }
  function Health(app: Json): (r: Option<Json>) { Then(Then(Then(Some(app), "status"), "health"), "status") }

  /** The dict {"sync_status": ..., "health_status": ...} stored per application. */
  function StatusRecord(sync: Json, health: Json): (r: Json)
    ensures IsStatusRecord(r)
    ensures Index(r, "sync_status") == Some(sync) && Index(r, "health_status") == Some(health)
  {
    JObj(map[JStr("sync_status") := sync, JStr("health_status") := health])
  }

  predicate IsStatusRecord(j: Json)
  {
    j.JObj? && j.fields.Keys == {JStr("sync_status"), JStr("health_status")}
  }

  /** One element of the comprehension: its key and its value. Any missing
      field raises, and so does a name that cannot be a dict key. */
  function Entry(app: Json): (r: Result<(Json, Json)>)
    ensures r.Ok? <==> Name(app).Some? && Sync(app).Some? && Health(app).Some? && Hashable(Name(app).value)
    ensures r.Ok? ==> Name(app) == Some(r.value.0) && r.value.1 == StatusRecord(Sync(app).value, Health(app).value)
    ensures r.Ok? ==> IsStatusRecord(r.value.1)
  {
    match (Name(app), Sync(app), Health(app))
    case (Some(name), Some(sync), Some(health)) =>
      if Hashable(name) then Ok((name, StatusRecord(sync, health))) else Raised
    case _ => Raised
  }

  /** A Python dict with its insertion order: `order` is the order in which
      iteration visits the keys of `table`. */
  datatype States = States(order: seq<Json>, table: map<Json, Json>)
  {
    /** Iteration visits keys of the table, each at most once. */
    ghost predicate Valid()
    {
      && (forall i, j :: 0 <= i < j < |order| ==> order[i] != order[j])
      && (forall i :: 0 <= i < |order| ==> order[i] in table)
    }

    /** Iteration visits every key of the table. */
    ghost predicate Listed()
    {
      forall n :: n in table ==> n in order
    }
  }

  /** `d[name] = value` on an ordered dict: a new key goes to the end, an
      existing key keeps its place and takes the new value. */
  function Insert(st: States, name: Json, value: Json): (r: States)
  {
    States(if name in st.table then st.order else st.order + [name], st.table[name := value])
  }

  /** The names of the well-formed applications of a list. */
  ghost function Names(apps: seq<Json>): (r: set<Json>)
  {
    Keys(apps, Entry)
  }

  /** The keys `entry` gives the elements of `apps` it accepts. */
  ghost function Keys(apps: seq<Json>, entry: Json -> Result<(Json, Json)>): (r: set<Json>)
  {
    set i | 0 <= i < |apps| && entry(apps[i]).Ok? :: entry(apps[i]).value.0
  }

  /** The comprehension building current_states, element by element. */
  function Build(apps: seq<Json>): (r: Result<States>)
    ensures r.Ok? ==> r.value.Valid() && r.value.Listed()
    ensures r.Ok? ==> forall n :: n in r.value.table ==> IsStatusRecord(r.value.table[n])
    decreases |apps|
  {
    if apps == [] then Ok(States([], map[]))
    else
      var init, last := apps[..|apps| - 1], apps[|apps| - 1];
      match Build(init)
      case Raised => Raised
      case Ok(st) =>
        match Entry(last)
        case Raised => Raised
        case Ok(e) =>
          InsertValid(st, e.0, e.1);
          Ok(Insert(st, e.0, e.1))
  }

  /** The comprehension raises exactly when one of the elements is malformed. */
  lemma {:induction false} BuildSucceeds(apps: seq<Json>)
    ensures Build(apps).Ok? <==> forall i :: 0 <= i < |apps| ==> Entry(apps[i]).Ok?
    decreases |apps|
  {
    if apps != [] {
      BuildSucceeds(apps[..|apps| - 1]);
      AllEntriesSnoc(apps, apps[..|apps| - 1]);
    }
  }

  lemma AllEntriesSnoc(apps: seq<Json>, init: seq<Json>)
    requires apps != [] && init == apps[..|apps| - 1]
    ensures (forall i :: 0 <= i < |apps| ==> Entry(apps[i]).Ok?) <==>
            (forall i :: 0 <= i < |init| ==> Entry(init[i]).Ok?) && Entry(apps[|apps| - 1]).Ok?
  {
    assert forall i :: 0 <= i < |init| ==> init[i] == apps[i];
  }

  /** current_states has exactly one key per distinct name in the list. */
  lemma {:induction false} BuildKeys(apps: seq<Json>)
    requires Build(apps).Ok?
    ensures Build(apps).value.table.Keys == Names(apps)
    decreases |apps|
  {
    if apps != [] {
      var init := apps[..|apps| - 1];
      BuildKeys(init);
      NamesSnoc(apps);
    }
  }

  lemma NamesSnoc(apps: seq<Json>)
    requires apps != [] && Entry(apps[|apps| - 1]).Ok?
    ensures Names(apps) == Names(apps[..|apps| - 1]) + {Entry(apps[|apps| - 1]).value.0}
  {
    KeysSnoc(apps, apps[..|apps| - 1], apps[|apps| - 1], Entry);
  }

  lemma KeysSnoc(apps: seq<Json>, init: seq<Json>, last: Json, entry: Json -> Result<(Json, Json)>)
    requires apps == init + [last] && entry(last).Ok?
    ensures Keys(apps, entry) == Keys(init, entry) + {entry(last).value.0}
  {
    forall n | n in Keys(apps, entry) ensures n in Keys(init, entry) + {entry(last).value.0} {
      var i :| 0 <= i < |apps| && entry(apps[i]).Ok? && entry(apps[i]).value.0 == n;
      if i < |init| { assert apps[i] == init[i]; }
    }
    forall n | n in Keys(init, entry) ensures n in Keys(apps, entry) {
      var i :| 0 <= i < |init| && entry(init[i]).Ok? && entry(init[i]).value.0 == n;
      assert apps[i] == init[i];
    }
    assert apps[|init|] == last;
  }

  lemma InsertValid(st: States, name: Json, value: Json)
    requires st.Valid() && st.Listed()
    ensures Insert(st, name, value).Valid() && Insert(st, name, value).Listed()
    ensures Insert(st, name, value).table.Keys == st.table.Keys + {name}
  {
  }

  /** The whole inventory step of a cycle: fetch, iterate, build. */
  function CurrentStates(reply: FetchReply): (r: Result<States>)
    ensures r.Ok? ==> r.value.Valid() && r.value.Listed()
    ensures r.Ok? ==> forall n :: n in r.value.table ==> IsStatusRecord(r.value.table[n])
    ensures r.Ok? <==> GetApplications(reply).Ok? && Elements(GetApplications(reply).value).Ok? &&
                       Build(Elements(GetApplications(reply).value).value).Ok?
  {
    match GetApplications(reply)
    case Raised => Raised
    case Ok(items) =>
      match Elements(items)
      case Raised => Raised
      case Ok(apps) => Build(apps)
  }

  /** With duplicate names the last element's status wins. */
  lemma {:induction false} LastWins(apps: seq<Json>, i: nat)
    requires forall j :: 0 <= j < |apps| ==> Entry(apps[j]).Ok?
    requires i < |apps|
    requires forall j :: i < j < |apps| ==> Entry(apps[j]).value.0 != Entry(apps[i]).value.0
    ensures Build(apps).Ok? && Entry(apps[i]).value.0 in Build(apps).value.table
    ensures Build(apps).value.table[Entry(apps[i]).value.0] == Entry(apps[i]).value.1
    decreases |apps|
  {
    var init := apps[..|apps| - 1];
    assert forall k :: 0 <= k < |init| ==> apps[k] == init[k];
    BuildSucceeds(apps);
    BuildStep(apps);
    if i < |apps| - 1 {
      LastWins(init, i);
    }
  }

  /** The last element's entry is assigned on top of the dict of the others. */
  lemma BuildStep(apps: seq<Json>)
    requires apps != [] && Build(apps).Ok?
    ensures Build(apps[..|apps| - 1]).Ok? && Entry(apps[|apps| - 1]).Ok?
    ensures var e := Entry(apps[|apps| - 1]).value;
            Build(apps).value.table == Build(apps[..|apps| - 1]).value.table[e.0 := e.1]
  {
    var st, e := Build(apps[..|apps| - 1]).value, Entry(apps[|apps| - 1]).value;
    assert Build(apps) == Ok(Insert(st, e.0, e.1));
  }

  /** A failed fetch is indistinguishable from an empty inventory. */
  lemma FailedFetchLooksEmpty(reply: FetchReply)
    requires reply.Response?
    requires reply.status != 200 || reply.body.None? ||
             (reply.body.value.JObj? && JStr("items") !in reply.body.value.fields)
    ensures CurrentStates(reply) == Ok(States([], map[]))
  {
  }
}

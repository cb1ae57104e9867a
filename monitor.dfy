/** monitor_applications: the snapshot held across cycles and one pass of
    the polling loop (fetch, diff, notify, commit, persist, pick the delay). */
module Monitor {
  import opened PyJson
  import opened Inventory
  import opened NotifierStore
  import opened Reconcile

  /** Seconds slept after a cycle that completed, and after one that raised. */
  const NormalDelay: nat := 30
  const ErrorDelay: nat := 60

  /** How the messaging endpoint treats one message: it answers with some
      HTTP status (200 or not, both are only logged), or the request raises. */
  datatype Delivery = Answered(status: int) | Unreachable

  /** Where a cycle ended. Every stage but Completed is an exception caught
      by the loop's handler. */
  datatype Stage =
    | FetchFailed        // get_applications or the comprehension raised
    | SnapshotUnusable   // the saved state is not a dict: `.get` / `.keys()` raise
    | RenderFailed       // a change message could not be built from the saved entry
    | DeliveryFailed     // sending a message raised
    | SaveFailed         // the snapshot advanced, then persisting it raised
    | Completed

  class Monitor {
    /** The name of the Notifier object holding the snapshot. */
    const resource: string
    /** saved_states: what has already been announced, by application name. */
    var savedStates: Json
    /** The Notifier objects of the store. */
    var objects: Objects
    /** Every message handed to the messaging endpoint, in order. */
    ghost var sent: seq<Event>

    constructor (resource: string, objects: Objects, loaded: Json)
      ensures this.resource == resource && this.objects == objects
      ensures savedStates == loaded && sent == []
    {
      this.resource := resource;
      this.objects := objects;
      savedStates := loaded;
      sent := [];
    }

    /** Start of monitor_applications: load the snapshot once. A load that
        raises is outside the loop's handler, so the monitor never starts. */
    static method Start(resource: string, objects: Objects, call: Call) returns (m: Monitor?)
      ensures m == null <==> LoadState(objects, resource, call).Raised?
      ensures m != null ==> fresh(m) && m.resource == resource && m.objects == objects
      ensures m != null ==> m.savedStates == LoadState(objects, resource, call).value && m.sent == []
    {
      match LoadState(objects, resource, call)
      case Raised => m := null;
      case Ok(state) => m := new Monitor(resource, objects, state);
    }

    /** One pass of the loop. `reply` is what the applications endpoint gives
        back, `sink(k)` how the k-th message of this cycle is treated, and the
        two calls how the server treats the replace and the create of the save.
        Returns the delay before the next pass. */
    method Cycle(reply: FetchReply, sink: nat -> Delivery, replaceCall: Call, createCall: Call)
      returns (delay: nat, ghost stage: Stage, ghost sentNow: seq<Event>)
      modifies this
      ensures sent == old(sent) + sentNow
      ensures delay == if stage == Completed then NormalDelay else ErrorDelay
      ensures stage == FetchFailed <==> CurrentStates(reply).Raised?
      ensures stage == SnapshotUnusable <==> CurrentStates(reply).Ok? && !old(savedStates).JObj?
      ensures stage in {FetchFailed, SnapshotUnusable} ==> sentNow == []
      // the messages, for a cycle that got as far as the diff
      ensures stage !in {FetchFailed, SnapshotUnusable} ==>
        Reported(old(savedStates).fields, CurrentStates(reply).value, stage, sentNow, sink)
      // an exception before the commit leaves the snapshot and the store alone
      ensures stage in {FetchFailed, SnapshotUnusable, RenderFailed, DeliveryFailed} ==>
        savedStates == old(savedStates) && objects == old(objects)
      // from the commit on, the snapshot is exactly the current map
      ensures stage in {SaveFailed, Completed} ==>
        savedStates == JObj(CurrentStates(reply).value.table)
      ensures stage in {SaveFailed, Completed} ==>
        (stage == Completed, objects) == SaveState(old(objects), resource, savedStates, replaceCall, createCall)
    {
      var current := CurrentStates(reply);
      if current.Raised? {
        return ErrorDelay, FetchFailed, [];
      }
      delay, stage, sentNow := Process(current.value, sink, replaceCall, createCall);
    }

    /** The cycle from the moment current_states has been built. */
    method Process(st: States, sink: nat -> Delivery, replaceCall: Call, createCall: Call)
      returns (delay: nat, ghost stage: Stage, ghost sentNow: seq<Event>)
      requires st.Valid()
      modifies this
      ensures sent == old(sent) + sentNow
      ensures delay == if stage == Completed then NormalDelay else ErrorDelay
      ensures stage != FetchFailed
      ensures stage == SnapshotUnusable <==> !old(savedStates).JObj?
      ensures stage == SnapshotUnusable ==> sentNow == []
      ensures stage != SnapshotUnusable ==> Reported(old(savedStates).fields, st, stage, sentNow, sink)
      ensures stage in {SnapshotUnusable, RenderFailed, DeliveryFailed} ==>
        savedStates == old(savedStates) && objects == old(objects)
      ensures stage in {SaveFailed, Completed} ==> savedStates == JObj(st.table)
      ensures stage in {SaveFailed, Completed} ==>
        (stage == Completed, objects) == SaveState(old(objects), resource, savedStates, replaceCall, createCall)
    {
      if !savedStates.JObj? {
        return ErrorDelay, SnapshotUnusable, [];
      }
      var saved := savedStates.fields;
      var end;
      end, sentNow := NotifyAll(saved, st, sink);
      stage := end;
      if end != Completed {
        return ErrorDelay, end, sentNow;
      }

      // commit in memory, then persist
      savedStates := JObj(st.table);
      var ok := Persist(replaceCall, createCall);
      if ok {
        delay := NormalDelay;
      } else {
        delay, stage := ErrorDelay, SaveFailed;
      }
    }

    /** The two notification loops of a cycle: new and changed applications
        in the order of current_states, then the deleted ones in the order
        the set yields them. Ends Completed when no exception was raised. */
    method NotifyAll(saved: map<Json, Json>, st: States, sink: nat -> Delivery)
      returns (stage: Stage, ghost sentNow: seq<Event>)
      requires st.Valid()
      modifies this`sent
      ensures sent == old(sent) + sentNow
      ensures stage in {RenderFailed, DeliveryFailed, Completed}
      ensures Reported(saved, st, stage, sentNow, sink)
    {
      var end, k, events := AnnounceCurrent(saved, st, sink);
      if end != Completed {
        return end, events;
      }
      ghost var before := sent;
      ghost var removals;
      stage, removals := AnnounceDeleted(saved, st, sink, events, k);
      sentNow := events + removals;
      AppendAssoc(old(sent), events, removals);
    }

    /** The loop over deleted_apps, once the loop over the current
        applications has sent `events` without raising. */
    method AnnounceDeleted(saved: map<Json, Json>, st: States, sink: nat -> Delivery, ghost events: seq<Event>, k: nat)
      returns (stage: Stage, ghost removals: seq<Event>)
      requires st.Valid()
      requires Announce(saved, st.order, st.table, |st.order|) == (events, true)
      requires k == |events| && forall j :: 0 <= j < k ==> sink(j).Answered?
      modifies this`sent
      ensures sent == old(sent) + removals
      ensures stage in {DeliveryFailed, Completed}
      ensures Reported(saved, st, stage, events + removals, sink)
    {
      var failed, k';
      failed, k', removals := AnnounceRemoved(Deleted(saved, st.table), sink, k);
      RemovalsReported(saved, st, events, removals, failed, sink);
      stage := if failed then DeliveryFailed else Completed;
    }

    /** save_state_to_crd(saved_states). */
    method Persist(replaceCall: Call, createCall: Call) returns (ok: bool)
      modifies this`objects
      ensures (ok, objects) == SaveState(old(objects), resource, savedStates, replaceCall, createCall)
    {
      var result := SaveState(objects, resource, savedStates, replaceCall, createCall);
      ok, objects := result.0, result.1;
    }

    /** The loop over current_states.items(): one message per new or changed
        application, stopping at the first exception. */
    method AnnounceCurrent(saved: map<Json, Json>, st: States, sink: nat -> Delivery)
      returns (end: Stage, k: nat, ghost news: seq<Event>)
      requires st.Valid()
      modifies this`sent
      ensures sent == old(sent) + news && k == |news|
      ensures end == Completed || end == RenderFailed || end == DeliveryFailed
      ensures end == Completed ==> Announce(saved, st.order, st.table, |st.order|) == (news, true)
      ensures end == Completed ==> forall j :: 0 <= j < k ==> sink(j).Answered?
      ensures end != Completed ==> Reported(saved, st, end, news, sink)
      // a delivery that raised cut the new/changed messages short: no removal was sent
      ensures end == DeliveryFailed ==>
        var all := Announce(saved, st.order, st.table, |st.order|).0;
        |news| <= |all| && news == all[..|news|]
    {
      news := [];
      var i;
      i, k, end := 0, 0, Completed;
      while i < |st.order|
        invariant 0 <= i <= |st.order|
        invariant Announce(saved, st.order, st.table, i) == (news, true)
        invariant k == |news| && sent == old(sent) + news
        invariant forall j :: 0 <= j < k ==> sink(j).Answered?
      {
        var verdict := Classify(saved, st.order[i], st.table[st.order[i]]);
        if verdict.Fault? {
          end := RenderFailed;
          break;
        }
        if verdict.Notify? {
          AppendAssoc(old(sent), news, [verdict.event]);
          sent := sent + [verdict.event];
          news := news + [verdict.event];
          k := k + 1;
          if sink(k - 1).Unreachable? {
            end := DeliveryFailed;
            break;
          }
        }
        i := i + 1;
      }
      if end == RenderFailed {
        AnnounceStops(saved, st.order, st.table, i + 1, |st.order|);
      } else if end == DeliveryFailed {
        CurrentPrefixIsPartial(saved, st, i + 1, news);
      }
    }

    /** The loop over deleted_apps: one removal message per name of `gone`,
        in whatever order the set yields them, stopping at the first
        exception. `k0` messages of the cycle were sent before. */
    method AnnounceRemoved(gone: set<Json>, sink: nat -> Delivery, k0: nat)
      returns (failed: bool, k: nat, ghost rs: seq<Event>)
      modifies this`sent
      ensures sent == old(sent) + rs && k == k0 + |rs|
      ensures Removals(rs, gone)
      ensures !failed ==> NamesOf(rs) == gone
      ensures failed ==> |rs| > 0 && sink(k - 1).Unreachable?
      ensures forall j :: k0 <= j < k && (!failed || j < k - 1) ==> sink(j).Answered?
    {
      rs := [];
      k := k0;
      var left := gone;
      while left != {}
        invariant left <= gone
        invariant Removals(rs, gone)
        invariant NamesOf(rs) == gone - left
        invariant k == k0 + |rs|
        invariant sent == old(sent) + rs
        invariant forall j :: k0 <= j < k ==> sink(j).Answered?
        decreases left
      {
        var name :| name in left;
        RemovalStep(rs, gone, left, name);
        AppendAssoc(old(sent), rs, [Removed(name)]);
        sent := sent + [Removed(name)];
        rs := rs + [Removed(name)];
        left := left - {name};
        k := k + 1;
        if sink(k - 1).Unreachable? {
          return true, k, rs;
        }
      }
      failed := false;
    }
  }

  /** What the messages handed to the sink during a cycle that reached the
      diff are, by the stage it ended at: the new/changed messages up to the
      render fault; the beginning of a full plan, ending at the message whose
      delivery raised; or a full plan. Every message but one whose delivery
      raised was answered, whatever its status. */
  ghost predicate Reported(saved: map<Json, Json>, st: States, stage: Stage, sentNow: seq<Event>, sink: nat -> Delivery)
  {
    && st.Valid()
    && (stage == RenderFailed ==> Announce(saved, st.order, st.table, |st.order|) == (sentNow, false))
    && (stage == DeliveryFailed ==>
          PartialPlan(saved, st, sentNow) && |sentNow| > 0 && sink(|sentNow| - 1).Unreachable?)
    && (stage in {SaveFailed, Completed} ==> FullPlan(saved, st, sentNow))
    && (forall k :: 0 <= k < |sentNow| && (stage != DeliveryFailed || k < |sentNow| - 1) ==> sink(k).Answered?)
  }

  /** Idempotence of the cycle: against the snapshot it committed itself,
      a cycle that reaches the diff can neither fault on a message nor send
      one, so it goes on to the commit having sent nothing. */
  lemma RepeatIsSilent(st: States, stage: Stage, sentNow: seq<Event>, sink: nat -> Delivery)
    requires st.Valid()
    requires forall n :: n in st.table ==> IsStatusRecord(st.table[n])
    requires stage in {RenderFailed, DeliveryFailed, SaveFailed, Completed}
    requires Reported(st.table, st, stage, sentNow, sink)
    ensures stage in {SaveFailed, Completed} && sentNow == []
  {
    AnnounceAgainstItself(st.order, st.table, |st.order|);
    assert Deleted(st.table, st.table) == {};
    assert sentNow[0..] == sentNow;
    NothingToRemove(sentNow);
    if stage in {SaveFailed, Completed} {
      Idempotent(st, sentNow);
    }
  }

  lemma NothingToRemove(rs: seq<Event>)
    ensures Removals(rs, {}) ==> rs == []
  {
    if rs != [] {
      assert rs[0].name !in {};
    }
  }

  /** A failed fetch looks like an empty inventory: a cycle that commits after
      it has announced the removal of every saved application and nothing
      else, and the snapshot it commits is empty. */
  lemma FailedFetchRemovesAll(reply: FetchReply, saved: map<Json, Json>, stage: Stage, sentNow: seq<Event>,
                              sink: nat -> Delivery)
    requires reply.Response?
    requires reply.status != 200 || reply.body.None? ||
             (reply.body.value.JObj? && JStr("items") !in reply.body.value.fields)
    requires stage in {SaveFailed, Completed}
    requires CurrentStates(reply).Ok? && Reported(saved, CurrentStates(reply).value, stage, sentNow, sink)
    ensures CurrentStates(reply).value.table == map[]
    ensures forall e :: e in sentNow <==> e.Removed? && e.name in saved
    ensures |sentNow| == |saved|
  {
    FailedFetchLooksEmpty(reply);
    EmptyInventoryRemovesAll(saved, sentNow);
  }

  lemma AppendAssoc(a: seq<Event>, b: seq<Event>, c: seq<Event>)
    ensures a + b + c == a + (b + c)
  {
  }

  /** The removal loop finishes what the loop over the current applications
      began: a full plan, or the beginning of one when a delivery raised. */
  lemma RemovalsReported(saved: map<Json, Json>, st: States, events: seq<Event>, removals: seq<Event>,
                         failed: bool, sink: nat -> Delivery)
    requires st.Valid()
    requires Announce(saved, st.order, st.table, |st.order|) == (events, true)
    requires Removals(removals, Deleted(saved, st.table))
    requires !failed ==> NamesOf(removals) == Deleted(saved, st.table)
    requires failed ==> |removals| > 0 && sink(|events| + |removals| - 1).Unreachable?
    requires forall j :: 0 <= j < |events| ==> sink(j).Answered?
    requires forall j :: |events| <= j < |events| + |removals| && (!failed || j < |events| + |removals| - 1) ==>
      sink(j).Answered?
    ensures Reported(saved, st, if failed then DeliveryFailed else Completed, events + removals, sink)
  {
    var sent := events + removals;
    assert sent[..|events|] == events && sent[|events|..] == removals;
  }

  lemma CurrentPrefixIsPartial(saved: map<Json, Json>, st: States, n: nat, news: seq<Event>)
    requires st.Valid() && n <= |st.order|
    requires Announce(saved, st.order, st.table, n).0 == news
    ensures PartialPlan(saved, st, news)
    ensures var all := Announce(saved, st.order, st.table, |st.order|).0;
            |news| <= |all| && news == all[..|news|]
  {
    AnnounceGrows(saved, st.order, st.table, n, |st.order|);
  }

  lemma RemovalStep(rs: seq<Event>, gone: set<Json>, left: set<Json>, name: Json)
    requires left <= gone && name in left
    requires Removals(rs, gone)
    requires NamesOf(rs) == gone - left
    ensures Removals(rs + [Removed(name)], gone)
    ensures NamesOf(rs + [Removed(name)]) == gone - (left - {name})
  {
    forall i | 0 <= i < |rs| ensures rs[i].name != name {
      assert rs[i].name in NamesOf(rs);
    }
    var rs' := rs + [Removed(name)];
    assert NamesOf(rs') == NamesOf(rs) + {name} by {
      forall n | n in NamesOf(rs') ensures n in NamesOf(rs) + {name} {
        var i :| 0 <= i < |rs'| && rs'[i].name == n;
        if i < |rs| { assert rs'[i] == rs[i]; }
      }
      forall n | n in NamesOf(rs) ensures n in NamesOf(rs') {
        var i :| 0 <= i < |rs| && rs[i].name == n;
        assert rs'[i] == rs[i];
      }
      assert rs'[|rs|].name == name;
    }
  }
}

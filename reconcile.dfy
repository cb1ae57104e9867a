/** The diff at the heart of a cycle: which notifications the current
    application states call for, given the saved snapshot. */
module Reconcile {
  import opened PyJson
  import opened Inventory

  /** One notification. Added carries the new status record (the message
      prints it whole); Changed carries the old and the new record (the
      message shows old -> new sync status and old -> new health status);
      Removed carries the name only. */
  datatype Event =
    | Added(name: Json, status: Json)
    | Changed(name: Json, from: Json, to: Json)
    | Removed(name: Json)

  /** Nothing has been announced for `name`: `saved.get(name)` is None, or
      the saved entry is falsy. */
  predicate Unknown(saved: map<Json, Json>, name: Json)
  {
    name !in saved || Falsy(saved[name])
  }

  /** The change message subscripts both records; a record lacking one of the
      two keys makes the f-string raise before anything is sent. */
  predicate Renderable(from: Json, to: Json)
  {
    && Index(from, "sync_status").Some? && Index(to, "sync_status").Some?
    && Index(from, "health_status").Some? && Index(to, "health_status").Some?
  }

  /** What the loop body does for one current application: no message, one
      message, or an exception while building the message. */
  datatype Verdict = Quiet | Notify(event: Event) | Fault

  function Classify(saved: map<Json, Json>, name: Json, now: Json): (r: Verdict)
    // every message is about `name`, and none is a removal
    ensures r.Notify? ==> r.event.name == name && !r.event.Removed?
    // "new" exactly for an unknown name, carrying the current record
    ensures (r.Notify? && r.event.Added?) <==> Unknown(saved, name)
    ensures r.Notify? && r.event.Added? ==> r.event.status == now
    // nothing exactly for a known name whose record is equal
    ensures r.Quiet? <==> !Unknown(saved, name) && saved[name] == now
    // "changed" carries the differing old and new records
    ensures r.Notify? && r.event.Changed? ==>
      r.event.from == saved[name] && r.event.to == now && r.event.from != r.event.to
    // an exception only for a known, differing record the message cannot subscript
    ensures r.Fault? <==> !Unknown(saved, name) && saved[name] != now && !Renderable(saved[name], now)
  {
    if Unknown(saved, name) then Notify(Added(name, now))
    else if saved[name] == now then Quiet
    else if Renderable(saved[name], now) then Notify(Changed(name, saved[name], now))
    else Fault
  }

  /** The new/changed messages for the first `n` current applications
      visited in `order`, and whether the loop got through all of them; on a
      Fault the messages before it are the ones already sent. */
  function Announce(saved: map<Json, Json>, order: seq<Json>, table: map<Json, Json>, n: nat): (r: (seq<Event>, bool))
    requires n <= |order|
    requires forall i :: 0 <= i < |order| ==> order[i] in table
  {
    if n == 0 then ([], true)
    else Extend(Announce(saved, order, table, n - 1), Classify(saved, order[n - 1], table[order[n - 1]]))
  }

  /** One more turn of the loop: once it has raised nothing changes. */
  function Extend(sofar: (seq<Event>, bool), verdict: Verdict): (r: (seq<Event>, bool))
    ensures |sofar.0| <= |r.0| <= |sofar.0| + 1 && r.0[..|sofar.0|] == sofar.0
  {
    if !sofar.1 then sofar
    else
      match verdict
      case Quiet => sofar
      case Notify(e) => (sofar.0 + [e], true)
      case Fault => (sofar.0, false)
  }

  /** Once the loop has raised, the later applications change nothing. */
  lemma {:induction false} AnnounceStops(saved: map<Json, Json>, order: seq<Json>, table: map<Json, Json>, n: nat, m: nat)
    requires n <= m <= |order|
    requires forall i :: 0 <= i < |order| ==> order[i] in table
    requires !Announce(saved, order, table, n).1
    ensures Announce(saved, order, table, m) == Announce(saved, order, table, n)
    decreases m
  {
    if n < m {
      AnnounceStops(saved, order, table, n, m - 1);
    }
  }

  /** The messages of a shorter prefix begin the messages of a longer one. */
  lemma {:induction false} AnnounceGrows(saved: map<Json, Json>, order: seq<Json>, table: map<Json, Json>, n: nat, m: nat)
    requires n <= m <= |order|
    requires forall i :: 0 <= i < |order| ==> order[i] in table
    ensures var short := Announce(saved, order, table, n);
            var long := Announce(saved, order, table, m);
            |short.0| <= |long.0| && long.0[..|short.0|] == short.0 && (long.1 ==> short.1)
    decreases m
  {
    if n < m {
      AnnounceGrows(saved, order, table, n, m - 1);
      var mid := Announce(saved, order, table, m - 1).0;
      var long := Announce(saved, order, table, m).0;
      assert long[..|mid|] == mid;
      assert long[..|mid|][..|Announce(saved, order, table, n).0|] == long[..|Announce(saved, order, table, n).0|];
    }
  }

  /** The names in the saved snapshot that are absent from the current map. */
  function Deleted(saved: map<Json, Json>, table: map<Json, Json>): (r: set<Json>)
    ensures forall n :: n in r <==> n in saved && n !in table
  {
    saved.Keys - table.Keys
  }

  ghost function NamesOf(events: seq<Event>): (r: set<Json>)
  {
    set i | 0 <= i < |events| :: events[i].name
  }

  /** Removal messages for distinct names of `gone`. */
  ghost predicate Removals(rs: seq<Event>, gone: set<Json>)
  {
    && (forall i :: 0 <= i < |rs| ==> rs[i].Removed? && rs[i].name in gone)
    && (forall i, j :: 0 <= i < j < |rs| ==> rs[i].name != rs[j].name)
  }

  /** `plan` is the full list of messages of one cycle: every new/changed
      message in iteration order, then one removal message per deleted name,
      in some order (the order of a Python set). */
  ghost predicate FullPlan(saved: map<Json, Json>, st: States, plan: seq<Event>)
  {
    && st.Valid()
    && var (events, ok) := Announce(saved, st.order, st.table, |st.order|);
    && ok
    && |events| <= |plan|
    && plan[..|events|] == events
    && Removals(plan[|events|..], Deleted(saved, st.table))
    && NamesOf(plan[|events|..]) == Deleted(saved, st.table)
  }

  /** `sent` is the beginning of some full plan: the messages handed to the
      sink before a delivery raised. */
  ghost predicate PartialPlan(saved: map<Json, Json>, st: States, sent: seq<Event>)
  {
    && st.Valid()
    && var (events, ok) := Announce(saved, st.order, st.table, |st.order|);
    && ((|sent| <= |events| && sent == events[..|sent|]) ||
        (ok && |events| <= |sent| && sent[..|events|] == events &&
         Removals(sent[|events|..], Deleted(saved, st.table))))
  }

  /** The reference: one Added per unknown current name, one Changed per
      known name whose record differs, one Removed per deleted name. */
  ghost function Expected(saved: map<Json, Json>, table: map<Json, Json>): (r: set<Event>)
  {
    (set n | n in table && Unknown(saved, n) :: Added(n, table[n]))
    + (set n | n in table && n in saved && !Falsy(saved[n]) && saved[n] != table[n]
         :: Changed(n, saved[n], table[n]))
    + (set n | n in saved && n !in table :: Removed(n))
  }

  /** What the loop over the first `n` current applications produces:
      it gets through exactly when none of them faults, its messages are
      exactly the Notify verdicts, none is a removal, and no name repeats. */
  lemma AnnounceFacts(saved: map<Json, Json>, order: seq<Json>, table: map<Json, Json>, n: nat)
    requires n <= |order|
    requires forall i :: 0 <= i < |order| ==> order[i] in table
    requires forall i, j :: 0 <= i < j < |order| ==> order[i] != order[j]
    ensures var (events, ok) := Announce(saved, order, table, n);
      && (ok <==> forall k :: 0 <= k < n ==> !Classify(saved, order[k], table[order[k]]).Fault?)
      && (ok ==> forall e :: e in events <==> e.name in order[..n] && Classify(saved, e.name, table[e.name]) == Notify(e))
      && (forall e :: e in events ==> !e.Removed? && e.name in order[..n])
      && (forall i, j :: 0 <= i < j < |events| ==> events[i].name != events[j].name)
  {
    AnnounceOk(saved, order, table, n);
    AnnounceEvents(saved, order, table, n);
    AnnounceDistinct(saved, order, table, n);
  }

  /** The loop gets through exactly when no visited application faults. */
  lemma {:induction false} AnnounceOk(saved: map<Json, Json>, order: seq<Json>, table: map<Json, Json>, n: nat)
    requires n <= |order|
    requires forall i :: 0 <= i < |order| ==> order[i] in table
    ensures Announce(saved, order, table, n).1 <==>
      forall k :: 0 <= k < n ==> !Classify(saved, order[k], table[order[k]]).Fault?
    decreases n
  {
    if n > 0 {
      AnnounceOk(saved, order, table, n - 1);
    }
  }

  /** The messages are about visited applications, none is a removal, and
      when the loop got through they are exactly the Notify verdicts. */
  lemma {:induction false} AnnounceEvents(saved: map<Json, Json>, order: seq<Json>, table: map<Json, Json>, n: nat)
    requires n <= |order|
    requires forall i :: 0 <= i < |order| ==> order[i] in table
    ensures var (events, ok) := Announce(saved, order, table, n);
      && (ok ==> forall e :: e in events <==> e.name in order[..n] && Classify(saved, e.name, table[e.name]) == Notify(e))
      && (forall e :: e in events ==> !e.Removed? && e.name in order[..n])
    decreases n
  {
    if n > 0 {
      AnnounceEvents(saved, order, table, n - 1);
      assert forall x :: x in order[..n] <==> x in order[..n - 1] || x == order[n - 1];
      var prev := Announce(saved, order, table, n - 1);
      var verdict := Classify(saved, order[n - 1], table[order[n - 1]]);
      assert Announce(saved, order, table, n) == Extend(prev, verdict);
    }
  }

  /** No name is announced twice, since the visited names are distinct. */
  lemma {:induction false} AnnounceDistinct(saved: map<Json, Json>, order: seq<Json>, table: map<Json, Json>, n: nat)
    requires n <= |order|
    requires forall i :: 0 <= i < |order| ==> order[i] in table
    requires forall i, j :: 0 <= i < j < |order| ==> order[i] != order[j]
    ensures var events := Announce(saved, order, table, n).0;
      forall i, j :: 0 <= i < j < |events| ==> events[i].name != events[j].name
    decreases n
  {
    if n > 0 {
      AnnounceDistinct(saved, order, table, n - 1);
      AnnounceEvents(saved, order, table, n - 1);
      var prev := Announce(saved, order, table, n - 1);
      var verdict := Classify(saved, order[n - 1], table[order[n - 1]]);
      if prev.1 && verdict.Notify? {
        assert order[n - 1] !in order[..n - 1];
        assert Announce(saved, order, table, n).0 == prev.0 + [verdict.event];
      }
    }
  }

  /** Diff correctness: a full plan holds exactly the expected messages,
      each name at most once, and every removal after every other message. */
  lemma PlanIsExact(saved: map<Json, Json>, st: States, plan: seq<Event>)
    requires st.Listed() && FullPlan(saved, st, plan)
    ensures forall e :: e in plan <==> e in Expected(saved, st.table)
    ensures forall i, j :: 0 <= i < j < |plan| ==> plan[i].name != plan[j].name
    ensures forall i, j :: 0 <= i < j < |plan| && plan[i].Removed? ==> plan[j].Removed?
  {
    var events := Announce(saved, st.order, st.table, |st.order|).0;
    AnnounceFacts(saved, st.order, st.table, |st.order|);
    assert st.order[..|st.order|] == st.order;
    var rs := plan[|events|..];
    assert plan == events + rs;
    PlanSound(saved, st, events, rs);
    PlanComplete(saved, st, events, rs);
    forall e | e in events ensures e.name in st.table {
      assert e.name in st.order[..|st.order|];
    }
    ConcatDistinct(events, rs, st.table);
    RemovalsLast(events, rs);
  }

  /** Messages about current names followed by messages about other names,
      each part without repeats, repeat no name. */
  lemma ConcatDistinct(events: seq<Event>, rs: seq<Event>, table: map<Json, Json>)
    requires forall i, j :: 0 <= i < j < |events| ==> events[i].name != events[j].name
    requires forall i, j :: 0 <= i < j < |rs| ==> rs[i].name != rs[j].name
    requires forall e :: e in events ==> e.name in table
    requires forall i :: 0 <= i < |rs| ==> rs[i].name !in table
    ensures forall i, j :: 0 <= i < j < |events + rs| ==> (events + rs)[i].name != (events + rs)[j].name
  {
    var plan := events + rs;
    forall i, j | 0 <= i < j < |plan| ensures plan[i].name != plan[j].name {
      if j < |events| {
        assert plan[i] == events[i] && plan[j] == events[j];
      } else if i < |events| {
        assert plan[i] in events;
        assert plan[j] == rs[j - |events|];
      } else {
        assert plan[i] == rs[i - |events|] && plan[j] == rs[j - |events|];
      }
    }
  }

  lemma RemovalsLast(events: seq<Event>, rs: seq<Event>)
    requires forall e :: e in events ==> !e.Removed?
    requires forall i :: 0 <= i < |rs| ==> rs[i].Removed?
    ensures forall i, j :: 0 <= i < j < |events + rs| && (events + rs)[i].Removed? ==> (events + rs)[j].Removed?
  {
    var plan := events + rs;
    forall i | 0 <= i < |events| ensures !plan[i].Removed? {
      assert plan[i] == events[i];
    }
    forall j | |events| <= j < |plan| ensures plan[j].Removed? {
      assert plan[j] == rs[j - |events|];
    }
  }

  lemma PlanSound(saved: map<Json, Json>, st: States, events: seq<Event>, rs: seq<Event>)
    requires st.Valid()
    requires Announce(saved, st.order, st.table, |st.order|) == (events, true)
    requires forall e :: e in events <==> e.name in st.order && Classify(saved, e.name, st.table[e.name]) == Notify(e)
    requires Removals(rs, Deleted(saved, st.table))
    ensures forall e :: e in events + rs ==> e in Expected(saved, st.table)
  {
    forall e | e in events + rs ensures e in Expected(saved, st.table) {
      if e in events {
        assert Classify(saved, e.name, st.table[e.name]) == Notify(e);
      } else {
        var i :| 0 <= i < |rs| && rs[i] == e;
        assert e == Removed(e.name);
      }
    }
  }

  lemma PlanComplete(saved: map<Json, Json>, st: States, events: seq<Event>, rs: seq<Event>)
    requires st.Valid() && st.Listed()
    requires Announce(saved, st.order, st.table, |st.order|) == (events, true)
    requires forall k :: 0 <= k < |st.order| ==> !Classify(saved, st.order[k], st.table[st.order[k]]).Fault?
    requires forall e :: e in events <==> e.name in st.order && Classify(saved, e.name, st.table[e.name]) == Notify(e)
    requires Removals(rs, Deleted(saved, st.table)) && NamesOf(rs) == Deleted(saved, st.table)
    ensures forall e :: e in Expected(saved, st.table) ==> e in events + rs
  {
    forall e | e in Expected(saved, st.table) ensures e in events + rs {
      if e.Removed? {
        assert e.name in NamesOf(rs);
        var i :| 0 <= i < |rs| && rs[i].name == e.name;
        assert rs[i] == e;
      } else {
        assert e.name in st.order;
        var k :| 0 <= k < |st.order| && st.order[k] == e.name;
        assert Classify(saved, e.name, st.table[e.name]) == Notify(e);
        assert e in events;
      }
    }
  }

  /** Every record the comprehension builds is truthy and equal to itself, so
      a cycle against its own snapshot finds nothing to announce. */
  lemma {:induction false} AnnounceAgainstItself(order: seq<Json>, table: map<Json, Json>, n: nat)
    requires n <= |order|
    requires forall i :: 0 <= i < |order| ==> order[i] in table
    requires forall n :: n in table ==> IsStatusRecord(table[n])
    ensures Announce(table, order, table, n) == ([], true)
    decreases n
  {
    if n > 0 {
      AnnounceAgainstItself(order, table, n - 1);
      SelfQuiet(table, order[n - 1]);
    }
  }

  /** A status record compared with itself is truthy and equal: no message. */
  lemma SelfQuiet(table: map<Json, Json>, name: Json)
    requires name in table && IsStatusRecord(table[name])
    ensures Classify(table, name, table[name]) == Quiet
  {
    assert JStr("sync_status") in table[name].fields.Keys;
  }

  /** Idempotence: once the snapshot is the current map, the same inventory
      calls for no message at all. */
  lemma Idempotent(st: States, plan: seq<Event>)
    requires st.Valid()
    requires forall n :: n in st.table ==> IsStatusRecord(st.table[n])
    ensures FullPlan(st.table, st, plan) <==> plan == []
  {
    AnnounceAgainstItself(st.order, st.table, |st.order|);
    assert Deleted(st.table, st.table) == {};
    if plan == [] {
      assert NamesOf(plan[0..]) == {};
    }
    if plan != [] {
      assert plan[0].name in NamesOf(plan[0..]);
    }
  }

  /** An empty inventory (which is also what a failed fetch looks like)
      announces the removal of every saved application and nothing else. */
  lemma EmptyInventoryRemovesAll(saved: map<Json, Json>, plan: seq<Event>)
    requires FullPlan(saved, States([], map[]), plan)
    ensures forall e :: e in plan <==> e.Removed? && e.name in saved
    ensures |plan| == |saved|
  {
    var st := States([], map[]);
    PlanIsExact(saved, st, plan);
    var names := set i | 0 <= i < |plan| :: plan[i].name;
    assert names == saved.Keys by {
      assert plan[0..] == plan;
    }
    DistinctNamesCount(plan);
    assert |saved.Keys| == |saved|;
  }

  lemma {:induction false} DistinctNamesCount(events: seq<Event>)
    requires forall i, j :: 0 <= i < j < |events| ==> events[i].name != events[j].name
    ensures |NamesOf(events)| == |events|
    decreases |events|
  {
    if events != [] {
      var init := events[..|events| - 1];
      DistinctNamesCount(init);
      assert NamesOf(events) == NamesOf(init) + {events[|events| - 1].name} by {
        forall n | n in NamesOf(events) ensures n in NamesOf(init) + {events[|events| - 1].name} {
          var i :| 0 <= i < |events| && events[i].name == n;
          if i < |init| { assert init[i] == events[i]; }
        }
        forall n | n in NamesOf(init) ensures n in NamesOf(events) {
          var i :| 0 <= i < |init| && init[i].name == n;
          assert events[i] == init[i];
        }
      }
      forall i | 0 <= i < |init| ensures init[i].name != events[|events| - 1].name {
        assert events[i] == init[i];
      }
    }
  }
}

/** Watches of the in-memory adapter: the ids each one subscribes to and those that changed since its last poll. */
module MemoryWatch {
  import opened Results
  import opened Entities

  datatype Subscription = Subscription(ids: set<string>, dirty: set<string>)

  type Watches = map<string, Subscription>

  /** `created` says that the subscription created the watch, perhaps in place of one with the same random name. */
  datatype Op =
    | Sub(watch: string, ids: set<string>, created: bool)
    | Unsub(watch: string, ids: set<string>)
    | Close(watch: string)
    | Poll(watch: string)
    | Mark(id: string)

  function Step(watches: Watches, op: Op): Watches {
    match op
    case Sub(w, ids, created) =>
      var was := if !created && w in watches then watches[w] else Subscription({}, {});
      watches[w := Subscription(was.ids + ids, was.dirty)]
    case Unsub(w, ids) =>
      if w !in watches then watches else watches[w := Subscription(watches[w].ids - ids, watches[w].dirty - ids)]
    case Close(w) => watches - {w}
    case Poll(w) => if w !in watches then watches else watches[w := Subscription(watches[w].ids, {})]
    case Mark(id) =>
      map w | w in watches :: if id in watches[w].ids then Subscription(watches[w].ids, watches[w].dirty + {id}) else watches[w]
  }

  function RunOps(ops: seq<Op>): Watches {
    if ops == [] then map[] else Step(RunOps(ops[..|ops| - 1]), ops[|ops| - 1])
  }

  function ToSet(ids: seq<string>): set<string> { set i | 0 <= i < |ids| :: ids[i] }

  // ---- The adapter --------------------------------------------------------------------------

  class WatchTable {
    var watches: Watches

    constructor ()
      ensures watches == map[]
    {
      watches := map[];
    }

    /** `token` is the random name for a new watch. */
    method WatchSub(watchId: Option<string>, ids: seq<string>, token: string, entities: State)
        returns (id: string, current: State)
      modifies this
      ensures watchId.Some? && watchId.value in old(watches) ==>
                id == watchId.value && watches == Step(old(watches), Sub(id, ToSet(ids), false))
      ensures !(watchId.Some? && watchId.value in old(watches)) ==>
                id == token && watches == Step(old(watches), Sub(id, ToSet(ids), true))
      ensures id in watches && current == map e | e in watches[id].ids && e in entities :: entities[e]
    {
      if watchId.None? || watchId.value !in watches {
        id := token;
        watches := watches[id := Subscription({}, {})];
      } else {
        id := watchId.value;
      }
      var state := watches[id];
      ghost var start := state.ids;
      for i := 0 to |ids|
        invariant state.ids == start + ToSet(ids[..i]) && state.dirty == watches[id].dirty
      {
        assert ToSet(ids[..i + 1]) == ToSet(ids[..i]) + {ids[i]} by {
          assert ids[..i + 1] == ids[..i] + [ids[i]];
          ToSetAppend(ids[..i], ids[i]);
        }
        state := state.(ids := state.ids + {ids[i]});
      }
      assert ids[..|ids|] == ids;
      watches := watches[id := state];
      current := map e | e in state.ids && e in entities :: entities[e];
    }

    method WatchUnsub(watchId: string, ids: seq<string>, close: bool)
      modifies this
      ensures watches == Step(old(watches), if close then Close(watchId) else Unsub(watchId, ToSet(ids)))
    {
      if watchId !in watches {
        assert watches - {watchId} == watches;
        return;
      }
      if close {
        watches := watches - {watchId};
        return;
      }
      var state := watches[watchId];
      ghost var start := state;
      for i := 0 to |ids|
        invariant watches == old(watches)
        invariant state == Subscription(start.ids - ToSet(ids[..i]), start.dirty - ToSet(ids[..i]))
      {
        assert ids[..i + 1] == ids[..i] + [ids[i]];
        ToSetAppend(ids[..i], ids[i]);
        state := Subscription(state.ids - {ids[i]}, state.dirty - {ids[i]});
      }
      assert ids[..|ids|] == ids;
      watches := watches[watchId := state];
    }

    /** The changed entities, or with `refresh` all of the watch. */
    method WatchPoll(watchId: string, refresh: bool, entities: State) returns (changed: State)
      modifies this
      ensures watches == Step(old(watches), Poll(watchId))
      ensures watchId !in old(watches) ==> changed == map[]
      ensures watchId in old(watches) ==>
                forall e :: e in changed <==> e in entities && e in old(watches)[watchId].ids
                                              && (refresh || e in old(watches)[watchId].dirty)
      ensures forall e :: e in changed ==> changed[e] == entities[e]
    {
      if watchId !in watches {
        return map[];
      }
      var state := watches[watchId];
      var refVals := if refresh then state.ids else state.dirty * state.ids;
      watches := watches[watchId := Subscription(state.ids, {})];
      changed := map e | e in refVals && e in entities :: entities[e];
    }

    method MarkDirty(id: string)
      modifies this
      ensures watches == Step(old(watches), Mark(id))
    {
      var todo := watches.Keys;
      while todo != {}
        invariant todo <= watches.Keys && watches.Keys == old(watches).Keys
        invariant forall w :: w in watches ==> watches[w] == if w in todo then old(watches)[w] else Step(old(watches), Mark(id))[w]
      {
        var w :| w in todo;
        todo := todo - {w};
        if id in watches[w].ids {
          watches := watches[w := watches[w].(dirty := watches[w].dirty + {id})];
        }
      }
    }
  }

  lemma ToSetAppend(ids: seq<string>, id: string)
    ensures ToSet(ids + [id]) == ToSet(ids) + {id}
  {
    var all := ids + [id];
    forall x
      ensures x in ToSet(all) <==> x in ToSet(ids) || x == id
    {
      if x in ToSet(ids) {
        var i :| 0 <= i < |ids| && ids[i] == x;
        assert all[i] == x;
      }
      if x == id {
        assert all[|ids|] == x;
      }
    }
  }

  // ---- What a run of operations means, without the sets ----------------------------------------------

  /** The operation ends the watch's interest in the id. */
  predicate Ends(op: Op, watch: string, id: string) {
    match op
    case Sub(w, _, created) => w == watch && created
    case Unsub(w, ids) => w == watch && id in ids
    case Close(w) => w == watch
    case _ => false
  }

  predicate Subscribes(op: Op, watch: string, id: string) { op.Sub? && op.watch == watch && id in op.ids }

  /** Some subscription to the id has not ended since. */
  ghost predicate Subscribed(ops: seq<Op>, watch: string, id: string) {
    exists i :: 0 <= i < |ops| && Subscribes(ops[i], watch, id) && EndlessAfter(ops, i, watch, id)
  }

  ghost predicate EndlessAfter(ops: seq<Op>, i: int, watch: string, id: string) {
    forall j :: i < j < |ops| && 0 <= j ==> !Ends(ops[j], watch, id)
  }

  ghost predicate PolledAfter(ops: seq<Op>, i: int, watch: string) {
    exists j :: i < j < |ops| && 0 <= j && ops[j] == Poll(watch)
  }

  /** Marked while subscribed, and since then neither unsubscribed nor polled. */
  ghost predicate Changed(ops: seq<Op>, watch: string, id: string) {
    exists i: nat :: i < |ops| && ops[i] == Mark(id) && Subscribed(ops[..i], watch, id)
                     && EndlessAfter(ops, i, watch, id) && !PolledAfter(ops, i, watch)
  }

  /** Each operation, seen from one id of one watch. */
  lemma SubscribedStep(ops: seq<Op>, op: Op, watch: string, id: string)
    ensures Subscribed(ops + [op], watch, id) <==>
            Subscribes(op, watch, id) || (Subscribed(ops, watch, id) && !Ends(op, watch, id))
  {
    hide Subscribes, Ends;
    var all := ops + [op];
    if Subscribes(op, watch, id) {
      assert all[|ops|] == op && EndlessAfter(all, |ops|, watch, id);
    }
    if Subscribed(ops, watch, id) && !Ends(op, watch, id) {
      var i :| 0 <= i < |ops| && Subscribes(ops[i], watch, id) && EndlessAfter(ops, i, watch, id);
      assert all[i] == ops[i] && EndlessAfter(all, i, watch, id);
    }
    if Subscribed(all, watch, id) {
      var i :| 0 <= i < |all| && Subscribes(all[i], watch, id) && EndlessAfter(all, i, watch, id);
      if i < |ops| {
        assert all[|ops|] == op;
        assert forall j :: 0 <= j < |ops| ==> all[j] == ops[j];
        assert EndlessAfter(ops, i, watch, id);
      }
    }
  }

  lemma ChangedStep(ops: seq<Op>, op: Op, watch: string, id: string)
    ensures Changed(ops + [op], watch, id) <==>
            || (op == Mark(id) && Subscribed(ops, watch, id))
            || (Changed(ops, watch, id) && !Ends(op, watch, id) && op != Poll(watch))
  {
    hide Subscribed, Ends;
    var all := ops + [op];
    assert all[|ops|] == op && all[..|ops|] == ops;
    if op == Mark(id) && Subscribed(ops, watch, id) {
      assert EndlessAfter(all, |ops|, watch, id) && !PolledAfter(all, |ops|, watch);
    }
    if Changed(ops, watch, id) && !Ends(op, watch, id) && op != Poll(watch) {
      var i: nat :| i < |ops| && ops[i] == Mark(id) && Subscribed(ops[..i], watch, id)
                    && EndlessAfter(ops, i, watch, id) && !PolledAfter(ops, i, watch);
      AfterAppend(ops, op, i, watch, id);
      assert all[i] == Mark(id) && all[..i] == ops[..i];
    }
    if Changed(all, watch, id) {
      var i: nat :| i < |all| && all[i] == Mark(id) && Subscribed(all[..i], watch, id)
                    && EndlessAfter(all, i, watch, id) && !PolledAfter(all, i, watch);
      if i < |ops| {
        AfterAppend(ops, op, i, watch, id);
        assert ops[i] == Mark(id) && all[..i] == ops[..i];
      }
    }
  }

  lemma AfterAppend(ops: seq<Op>, op: Op, i: nat, watch: string, id: string)
    requires i < |ops|
    ensures EndlessAfter(ops + [op], i, watch, id) <==> EndlessAfter(ops, i, watch, id) && !Ends(op, watch, id)
    ensures PolledAfter(ops + [op], i, watch) <==> PolledAfter(ops, i, watch) || op == Poll(watch)
  {
    hide Ends;
    var all := ops + [op];
    assert all[|ops|] == op;
    assert forall j :: 0 <= j < |ops| ==> all[j] == ops[j];
    if PolledAfter(ops, i, watch) {
      var j :| i < j < |ops| && 0 <= j && ops[j] == Poll(watch);
      assert all[j] == Poll(watch);
    }
  }

  /** In every run a watch holds exactly the ids subscribed and not since ended, and its dirty set exactly those of
      them marked since they were last subscribed and since the last poll. */
  lemma {:induction false} RunMeaning(ops: seq<Op>, watch: string, id: string)
    ensures var watches := RunOps(ops);
            && (watch in watches && id in watches[watch].ids <==> Subscribed(ops, watch, id))
            && (watch in watches && id in watches[watch].dirty <==> Changed(ops, watch, id))
    decreases |ops|
  {
    if ops != [] {
      hide Subscribed, Changed;
      var front, op := ops[..|ops| - 1], ops[|ops| - 1];
      RunMeaning(front, watch, id);
      assert ops == front + [op];
      SubscribedStep(front, op, watch, id);
      ChangedStep(front, op, watch, id);
      ChangedSubscribed(front, watch, id);
    }
  }

  /** The dirty set of a watch stays within its ids. */
  lemma {:induction false} ChangedSubscribed(ops: seq<Op>, watch: string, id: string)
    ensures Changed(ops, watch, id) ==> Subscribed(ops, watch, id)
    decreases |ops|
  {
    if ops != [] {
      assert !Ends(Mark(id), watch, id);
      hide Subscribed, Changed, Ends, Subscribes;
      var front, op := ops[..|ops| - 1], ops[|ops| - 1];
      ChangedSubscribed(front, watch, id);
      assert ops == front + [op];
      SubscribedStep(front, op, watch, id);
      ChangedStep(front, op, watch, id);
    }
  }

  /** A poll reports each change once: after it, nothing is changed until the next mark. */
  lemma {:induction false} PolledOnce(ops: seq<Op>, later: seq<Op>, watch: string, id: string)
    requires forall i :: 0 <= i < |later| ==> later[i] != Mark(id)
    ensures !Changed(ops + [Poll(watch)] + later, watch, id)
    decreases |later|
  {
    hide Changed, Ends, Subscribed;
    var polled := ops + [Poll(watch)];
    if later == [] {
      ChangedStep(ops, Poll(watch), watch, id);
      assert polled + later == polled;
    } else {
      var front, op := later[..|later| - 1], later[|later| - 1];
      PolledOnce(ops, front, watch, id);
      assert polled + later == polled + front + [op];
      ChangedStep(polled + front, op, watch, id);
    }
  }
}

/**
 Request correlation in the WebSocket client. Each call creates a future and files it under the text of a
 32-bit id; replies arrive in any order, more than once, or after the caller has given up. The futures are
 numbered by call, and each steps from waiting to its outcome.
 */
module WsClient {
  import opened Results
  import opened Kinds
  import opened Json
  import JsonDecode
  import Text

  const ID_SPACE: nat := 0x1_0000_0000

  datatype Outcome =
    | Good(grid: Grid)
    | CallError(dis: Val)
    | NetworkError
    | GaveUp
    | Cancelled

  /** `calls[k]` is the outcome of the k-th call, none while it waits; `pending` maps an id to its call. */
  datatype ClientState = ClientState(nextId: nat, pending: map<string, nat>, calls: seq<Option<Outcome>>)

  datatype Event =
    | Start                                     // a call, alone or in a batch
    | Respond(id: string, outcome: Outcome)     // a reply carries an id
    | GiveUp(call: nat)                         // its caller timed out or failed
    | CancelCaller(call: nat)                   // its caller was cancelled: the future stays in the table
    | Lost                                      // the connection fails
    | Closed

  const INITIAL := ClientState(0, map[], [])

  /** The id of the k-th call. */
  function CallId(k: nat): string { Text.NatText(k % ID_SPACE) }

  /** The futures under these ids fail, unless they are done. */
  function FailAll(s: ClientState, outcome: Outcome): ClientState {
    ClientState(s.nextId, map[],
                seq(|s.calls|, k requires 0 <= k < |s.calls| =>
                  if k in s.pending.Values && s.calls[k].None? then Some(outcome) else s.calls[k]))
  }

  predicate InRange(s: ClientState) {
    forall id :: id in s.pending ==> s.pending[id] < |s.calls|
  }

  function Finish(calls: seq<Option<Outcome>>, k: nat, outcome: Outcome): seq<Option<Outcome>>
    requires k < |calls|
  {
    if calls[k].None? then calls[k := Some(outcome)] else calls
  }

  function Step(s: ClientState, e: Event): (t: ClientState)
    requires InRange(s)
    ensures InRange(t)
  {
    match e
    case Start =>
      ClientState((s.nextId + 1) % ID_SPACE, s.pending[Text.NatText(s.nextId) := |s.calls|], s.calls + [None])
    case Respond(id, outcome) =>
      if id !in s.pending then s
      else ClientState(s.nextId, s.pending - {id}, Finish(s.calls, s.pending[id], outcome))
    case GiveUp(k) =>
      if k >= |s.calls| then s
      else ClientState(s.nextId, s.pending - {CallId(k)}, Finish(s.calls, k, GaveUp))
    case CancelCaller(k) => if k >= |s.calls| then s else s.(calls := Finish(s.calls, k, Cancelled))
    case Lost => FailAll(s, NetworkError)
    case Closed => FailAll(s, Cancelled)
  }

  function Run(s: ClientState, events: seq<Event>): (t: ClientState)
    requires InRange(s)
    ensures InRange(t)
    decreases |events|
  {
    if events == [] then s else Run(Step(s, events[0]), events[1..])
  }

  lemma {:induction false} RunAppend(s: ClientState, events: seq<Event>, e: Event)
    requires InRange(s)
    ensures Run(s, events + [e]) == Step(Run(s, events), e)
    decreases |events|
  {
    hide Step;
    if events == [] {
      assert Run(s, [e]) == Run(Step(s, e), [e][1..]);
    } else {
      assert (events + [e])[1..] == events[1..] + [e];
      RunAppend(Step(s, events[0]), events[1..], e);
    }
  }

  // ---- Messages as events ---------------------------------------------------------------------------

  /** The outcome of a reply: its grid, the error grid's message, or a failure to decode it. */
  function ReplyOutcome(envelope: seq<Member>): Outcome {
    match JsonDecode.DecodedGrid(JsonDecode.Field(envelope, "grid", JNull), 0)
    case Err(_) => NetworkError
    case Ok(grid) => GridOutcome(grid)
  }

  /** A grid is an error if its meta has `err`. */
  function GridOutcome(grid: Grid): Outcome {
    if Find(grid.meta, "err").None? then Good(grid)
    else CallError(if Find(grid.meta, "dis").Some? then Get(grid.meta, "dis") else Str("Unknown error"))
  }

  /** What one reply envelope does: an id that is no text matches nothing, and one that cannot be a key,
      like an envelope that is no object, ends the receive loop. */
  function EnvelopeEvents(item: Json): seq<Event> {
    if !item.JObj? then [Lost]
    else
      match JsonDecode.Field(item.members, "id", JNull)
      case JStr(id) => [Respond(id, ReplyOutcome(item.members))]
      case JArr(_) => [Lost]
      case JObj(_) => [Lost]
      case _ => []
  }

  /** The envelopes of a batch reply, up to one that ends the loop. */
  function BatchEvents(items: seq<Json>): seq<Event> {
    if items == [] then []
    else if EnvelopeEvents(items[0]) == [Lost] then [Lost]
    else EnvelopeEvents(items[0]) + BatchEvents(items[1..])
  }

  function MessageEvents(msg: Json): seq<Event> {
    if msg.JArr? then BatchEvents(msg.items)
    else if msg.JObj? && JsonDecode.Field(msg.members, "type", JNull) == JStr("watch") then []
    else EnvelopeEvents(msg)
  }

  // ---- The client ----------------------------------------------------------------------------------------

  class WebSocketClient {
    var nextId: nat
    var pending: map<string, nat>
    var calls: seq<Option<Outcome>>

    function State(): ClientState
      reads this
    {
      ClientState(nextId, pending, calls)
    }

    constructor ()
      ensures State() == INITIAL
    {
      nextId := 0;
      pending := map[];
      calls := [];
    }

    /** The part of `_call` before it waits. */
    method Call() returns (reqId: string, fut: nat)
      requires InRange(State())
      modifies this
      ensures State() == Step(old(State()), Start)
      ensures reqId == Text.NatText(old(nextId)) && fut == old(|calls|)
    {
      reqId := Text.NatText(nextId);
      nextId := (nextId + 1) % ID_SPACE;
      fut := |calls|;
      calls := calls + [None];
      pending := pending[reqId := fut];
    }

    /** The part of `batch` before it waits: the futures in call order. */
    method StartBatch(n: nat) returns (futs: seq<(string, nat)>)
      requires InRange(State())
      modifies this
      ensures State() == Run(old(State()), Starts(n))
      ensures |futs| == n && forall i :: 0 <= i < n ==> futs[i].1 == old(|calls|) + i
    {
      futs := [];
      for i := 0 to n
        invariant InRange(State()) && State() == Run(old(State()), Starts(i))
        invariant |calls| == old(|calls|) + i
        invariant |futs| == i && forall j :: 0 <= j < i ==> futs[j].1 == old(|calls|) + j
      {
        RunAppend(old(State()), Starts(i), Start);
        assert Starts(i + 1) == Starts(i) + [Start];
        var reqId, fut := Call();
        futs := futs + [(reqId, fut)];
      }
    }

    /** The part of `batch` that waits, as far as the futures are done: results in call order, or the first
        outcome in call order that is no grid (none if that future is still waiting). */
    method CollectBatch(futs: seq<nat>) returns (r: Result<seq<Grid>, Option<Outcome>>)
      requires forall i :: 0 <= i < |futs| ==> futs[i] < |calls|
      ensures r.Ok? ==> |r.value| == |futs| && forall i :: 0 <= i < |futs| ==> calls[futs[i]] == Some(Good(r.value[i]))
      ensures r.Err? ==> exists i :: 0 <= i < |futs| && IsFirstFailure(calls, futs, i) && r.error == calls[futs[i]]
    {
      var results: seq<Grid> := [];
      for i := 0 to |futs|
        invariant |results| == i && forall j :: 0 <= j < i ==> calls[futs[j]] == Some(Good(results[j]))
      {
        var outcome := calls[futs[i]];
        if outcome.None? || !outcome.value.Good? {
          assert IsFirstFailure(calls, futs, i);
          return Err(outcome);
        }
        results := results + [outcome.value.grid];
      }
      return Ok(results);
    }

    /** `_resolve_grid_response`: true if the reply matched a future. */
    method ResolveGridResponse(id: string, envelope: seq<Member>) returns (matched: bool)
      requires InRange(State())
      modifies this
      ensures State() == Step(old(State()), Respond(id, ReplyOutcome(envelope)))
      ensures matched <==> id in old(pending)
    {
      if id !in pending {
        return false;
      }
      var fut := pending[id];
      pending := pending - {id};
      if calls[fut].Some? {
        return true;
      }
      var decoded := JsonDecode.DecodedGrid(JsonDecode.Field(envelope, "grid", JNull), 0);
      if decoded.Err? {
        calls := calls[fut := Some(NetworkError)];
      } else if Find(decoded.value.meta, "err").Some? {
        var dis := if Find(decoded.value.meta, "dis").Some? then Get(decoded.value.meta, "dis") else Str("Unknown error");
        calls := calls[fut := Some(CallError(dis))];
      } else {
        calls := calls[fut := Some(Good(decoded.value))];
      }
      return true;
    }

    /** One envelope of the receive loop; false if it ends the loop. */
    method HandleJsonResponse(item: Json) returns (alive: bool)
      requires InRange(State())
      modifies this
      ensures State() == Run(old(State()), EnvelopeEvents(item))
      ensures alive <==> EnvelopeEvents(item) != [Lost]
    {
      hide ReplyOutcome;
      alive := true;
      var id := if item.JObj? then JsonDecode.Field(item.members, "id", JNull) else JArr([]);
      if id.JArr? || id.JObj? {
        FailPending(NetworkError);
        alive := false;
      } else if id.JStr? {
        var _ := ResolveGridResponse(id.s, item.members);
      }
      assert forall e :: Run(old(State()), [e]) == Run(Step(old(State()), e), [e][1..]);
    }

    /** The envelopes of a batch reply. */
    method ReceiveBatch(items: seq<Json>)
      requires InRange(State())
      modifies this
      ensures State() == Run(old(State()), BatchEvents(items))
    {
      hide Step, EnvelopeEvents, InRange;
      var i, alive := 0, true;
      ghost var done: seq<Event> := [];
      while i < |items| && alive
        invariant i <= |items| && InRange(State())
        invariant InRange(old(State())) && State() == Run(old(State()), done)
        invariant BatchEvents(items) == done + (if alive then BatchEvents(items[i..]) else [])
      {
        ghost var before := State();
        alive := HandleJsonResponse(items[i]);
        RunConcat(old(State()), done, EnvelopeEvents(items[i]));
        assert items[i..][1..] == items[i + 1..];
        Text.Assoc(done, EnvelopeEvents(items[i]), BatchEvents(items[i + 1..]));
        done := done + EnvelopeEvents(items[i]);
        i := i + 1;
      }
      assert items[|items|..] == [];
      assert BatchEvents(items) == done;
    }

    /** One message of the receive loop. */
    method ReceiveMessage(msg: Json)
      requires InRange(State())
      modifies this
      ensures State() == Run(old(State()), MessageEvents(msg))
    {
      hide Step, EnvelopeEvents, InRange, BatchEvents;
      if msg.JArr? {
        ReceiveBatch(msg.items);
      } else if msg.JObj? && JsonDecode.Field(msg.members, "type", JNull) == JStr("watch") {
        return;
      } else {
        var _ := HandleJsonResponse(msg);
      }
    }

    /** A binary response frame: `decoded` is its payload as a grid, `isError` its error flag. */
    method HandleBinaryResponse(reqId: nat, isError: bool, decoded: Result<Grid, Error>)
      requires InRange(State())
      modifies this
      ensures State() == Step(old(State()), Respond(Text.NatText(reqId), BinaryOutcome(isError, decoded)))
      ensures var key := Text.NatText(reqId);
              key in old(pending) && old(calls)[old(pending)[key]].None? ==>
                calls[old(pending)[key]] == Some(if decoded.Err? then NetworkError
                                                 else if !isError then Good(decoded.value)
                                                 else CallError(if exists i :: 0 <= i < |decoded.value.meta| && decoded.value.meta[i].name == "dis"
                                                                then Get(decoded.value.meta, "dis") else Str("Unknown error")))
    {
      var key := Text.NatText(reqId);
      if key in pending {
        var fut := pending[key];
        pending := pending - {key};
        if calls[fut].None? {
          calls := calls[fut := Some(BinaryOutcome(isError, decoded))];
        }
      }
    }

    /** What a caller does that timed out or whose request could not be sent. */
    method Abandon(call: nat)
      requires InRange(State()) && call < |calls|
      modifies this
      ensures State() == Step(old(State()), GiveUp(call))
    {
      pending := pending - {CallId(call)};
      if calls[call].None? {
        calls := calls[call := Some(GaveUp)];
      }
    }

    /** A caller that is cancelled while it waits cancels its future, and leaves it in the table. */
    method CancelWaiting(call: nat)
      requires InRange(State()) && call < |calls|
      modifies `calls
      ensures State() == Step(old(State()), CancelCaller(call))
    {
      if calls[call].None? {
        calls := calls[call := Some(Cancelled)];
      }
    }

    /** A batch that timed out abandons all of its calls. */
    method AbandonBatch(futs: seq<nat>)
      requires InRange(State()) && forall i :: 0 <= i < |futs| ==> futs[i] < |calls|
      modifies this
      ensures State() == Run(old(State()), GiveUps(futs))
    {
      for i := 0 to |futs|
        invariant InRange(State()) && |calls| == old(|calls|)
        invariant State() == Run(old(State()), GiveUps(futs[..i]))
      {
        assert GiveUps(futs[..i + 1]) == GiveUps(futs[..i]) + [GiveUp(futs[i])];
        RunAppend(old(State()), GiveUps(futs[..i]), GiveUp(futs[i]));
        Abandon(futs[i]);
      }
      assert futs[..|futs|] == futs;
    }

    /** The connection is lost, or closed: every pending future fails. */
    method FailPending(outcome: Outcome)
      requires InRange(State())
      modifies this
      ensures State() == FailAll(old(State()), outcome)
      ensures pending == map[] && |calls| == old(|calls|)
      ensures forall k :: 0 <= k < |calls| ==>
                calls[k] == if k in old(pending).Values && old(calls)[k].None? then Some(outcome) else old(calls)[k]
    {
      var todo := pending.Values;
      while todo != {}
        invariant todo <= pending.Values && pending == old(pending) && nextId == old(nextId)
        invariant |calls| == old(|calls|)
        invariant forall k :: 0 <= k < |calls| ==>
                    calls[k] == if k in pending.Values && k !in todo && old(calls)[k].None? then Some(outcome) else old(calls)[k]
      {
        var fut :| fut in todo;
        todo := todo - {fut};
        if calls[fut].None? {
          calls := calls[fut := Some(outcome)];
        }
      }
      pending := map[];
    }
  }

  function BinaryOutcome(isError: bool, decoded: Result<Grid, Error>): Outcome {
    match decoded
    case Err(_) => NetworkError
    case Ok(grid) =>
      if !isError then Good(grid)
      else CallError(if Find(grid.meta, "dis").Some? then Get(grid.meta, "dis") else Str("Unknown error"))
  }

  function Starts(n: nat): seq<Event> { seq(n, _ => Start) }

  function GiveUps(calls: seq<nat>): seq<Event> { seq(|calls|, i requires 0 <= i < |calls| => GiveUp(calls[i])) }

  /** The first call of the batch, in call order, that has no grid. */
  ghost predicate IsFirstFailure(calls: seq<Option<Outcome>>, futs: seq<nat>, i: nat)
    requires forall j :: 0 <= j < |futs| ==> futs[j] < |calls|
    requires i < |futs|
  {
    && !(calls[futs[i]].Some? && calls[futs[i]].value.Good?)
    && forall j :: 0 <= j < i ==> calls[futs[j]].Some? && calls[futs[j]].value.Good?
  }

  lemma {:induction false} RunConcat(s: ClientState, a: seq<Event>, b: seq<Event>)
    requires InRange(s)
    ensures Run(s, a + b) == Run(Run(s, a), b)
    decreases |a|
  {
    hide Step;
    if a == [] {
      assert a + b == b;
    } else {
      assert (a + b)[1..] == a[1..] + b;
      RunConcat(Step(s, a[0]), a[1..], b);
    }
  }

  // ---- What each call sees, without the shared map -----------------------------------------------------------

  /** What this event means to call `k` while it waits. */
  function Settles(e: Event, k: nat): Option<Outcome> {
    match e
    case Start => None
    case Respond(id, outcome) => if id == CallId(k) then Some(outcome) else None
    case GiveUp(call) => if call == k then Some(GaveUp) else None
    case CancelCaller(call) => if call == k then Some(Cancelled) else None
    case Lost => Some(NetworkError)
    case Closed => Some(Cancelled)
  }

  /** The outcome of call `k` after these events, when `started` calls came before them: what the first event
      after its start that concerns it says, and none if there is none. */
  function Verdict(k: nat, started: nat, events: seq<Event>): Option<Outcome>
    decreases |events|
  {
    if events == [] then None
    else if k < started && Settles(events[0], k).Some? then Settles(events[0], k)
    else Verdict(k, started + CallsIn(events[..1]), events[1..])
  }

  function CallsIn(events: seq<Event>): nat {
    if events == [] then 0 else (if events[0].Start? then 1 else 0) + CallsIn(events[1..])
  }

  /** Every entry is filed under its call's id, and every waiting call has its entry. Entries of calls that are done may
      be left in the table. */
  ghost predicate Correlated(s: ClientState) {
    && InRange(s)
    && s.nextId == |s.calls| % ID_SPACE
    && (forall id :: id in s.pending ==> id == CallId(s.pending[id]))
    && (forall k :: 0 <= k < |s.calls| && s.calls[k].None? ==> CallId(k) in s.pending && s.pending[CallId(k)] == k)
  }

  lemma SameId(m: nat, n: nat)
    ensures CallId(m) == CallId(n) <==> m % ID_SPACE == n % ID_SPACE
  {
    Text.NatTextReadsBack(m % ID_SPACE);
    Text.NatTextReadsBack(n % ID_SPACE);
  }

  /** The call waits, and the call numbered `n` has the same id. */
  ghost predicate SharesId(s: ClientState, k: int, n: nat) {
    0 <= k < |s.calls| && s.calls[k].None? && k % ID_SPACE == n % ID_SPACE
  }

  /** The event takes the entry of a call that still waits and is not its own: a new call by filing itself there, a caller
      that gives up by removing the entry of its id. */
  ghost predicate Disturbs(s: ClientState, e: Event)
    requires InRange(s)
  {
    match e
    case Start => Text.NatText(s.nextId) in s.pending && s.calls[s.pending[Text.NatText(s.nextId)]].None?
    case GiveUp(call) =>
      && call < |s.calls| && CallId(call) in s.pending
      && s.pending[CallId(call)] != call && s.calls[s.pending[CallId(call)]].None?
    case _ => false
  }

  /** That is so exactly when some other call that still waits has the same id: one that is a multiple of 2^32 calls away. */
  lemma DisturbsExactly(s: ClientState, e: Event)
    requires Correlated(s)
    ensures Disturbs(s, e) <==>
              || (e.Start? && exists k :: SharesId(s, k, |s.calls|))
              || (e.GiveUp? && e.call < |s.calls| && exists k :: k != e.call && SharesId(s, k, e.call))
  {
    hide CallId, Text.NatText;
    if e.Start? {
      assert Text.NatText(s.nextId) == CallId(|s.calls|) by { NextIdIs(s); }
      WaitingSharers(s, |s.calls|);
    } else if e.GiveUp? && e.call < |s.calls| {
      WaitingSharers(s, e.call);
    }
  }

  lemma NextIdIs(s: ClientState)
    requires s.nextId == |s.calls| % ID_SPACE
    ensures Text.NatText(s.nextId) == CallId(|s.calls|)
  {
  }

  /** The waiting calls with the id of call `n`: the one filed under it, if that one waits. */
  lemma WaitingSharers(s: ClientState, n: nat)
    requires Correlated(s)
    ensures forall k :: SharesId(s, k, n) <==> CallId(n) in s.pending && s.pending[CallId(n)] == k && s.calls[k].None?
  {
    hide CallId;
    forall k
      ensures SharesId(s, k, n) <==> CallId(n) in s.pending && s.pending[CallId(n)] == k && s.calls[k].None?
    {
      if 0 <= k < |s.calls| {
        SameId(k, n);
      }
    }
  }

  /** No event of the run disturbs a call that still waits. */
  ghost predicate Clean(s: ClientState, events: seq<Event>)
    requires InRange(s)
    decreases |events|
  {
    events == [] || (!Disturbs(s, events[0]) && Clean(Step(s, events[0]), events[1..]))
  }

  /** One event that disturbs nothing: the invariant is kept, and each call sees just what the event means to it. */
  lemma StepSettles(s: ClientState, e: Event)
    requires Correlated(s) && !Disturbs(s, e)
    ensures InRange(s) && Correlated(Step(s, e))
    ensures |Step(s, e).calls| == |s.calls| + if e.Start? then 1 else 0
    ensures forall k :: 0 <= k < |s.calls| ==>
              Step(s, e).calls[k] == if s.calls[k].Some? then s.calls[k] else Settles(e, k)
    ensures e.Start? ==> Step(s, e).calls[|s.calls|].None?
  {
    hide CallId, Text.NatText;
    match e
    case Start => StepStart(s);
    case Respond(id, outcome) => StepRespond(s, id, outcome);
    case GiveUp(k) => StepGiveUp(s, k);
    case CancelCaller(k) =>
    case Lost => StepFail(s, NetworkError);
    case Closed => StepFail(s, Cancelled);
  }

  lemma StepStart(s: ClientState)
    requires Correlated(s) && !Disturbs(s, Start)
    ensures InRange(s) && Correlated(Step(s, Start))
  {
    hide CallId, Text.NatText;
    NextIdIs(s);
    var t := Step(s, Start);
    forall k | 0 <= k < |t.calls| && t.calls[k].None?
      ensures CallId(k) in t.pending && t.pending[CallId(k)] == k
    {
      if k < |s.calls| {
        assert s.calls[k].None? && CallId(k) != CallId(|s.calls|);
      }
    }
  }

  lemma StepRespond(s: ClientState, id: string, outcome: Outcome)
    requires Correlated(s)
    ensures InRange(s) && Correlated(Step(s, Respond(id, outcome)))
    ensures forall k :: 0 <= k < |s.calls| ==>
              Step(s, Respond(id, outcome)).calls[k] ==
              if s.calls[k].Some? then s.calls[k] else Settles(Respond(id, outcome), k)
  {
    hide CallId;
    var t := Step(s, Respond(id, outcome));
    forall k | 0 <= k < |s.calls| && s.calls[k].None?
      ensures t.calls[k] == Settles(Respond(id, outcome), k)
      ensures t.calls[k].None? ==> CallId(k) in t.pending && t.pending[CallId(k)] == k
    {
      assert CallId(k) in s.pending && s.pending[CallId(k)] == k;
    }
  }

  lemma StepGiveUp(s: ClientState, call: nat)
    requires Correlated(s) && !Disturbs(s, GiveUp(call))
    ensures InRange(s) && Correlated(Step(s, GiveUp(call)))
  {
    hide CallId;
    var t := Step(s, GiveUp(call));
    forall k | 0 <= k < |t.calls| && t.calls[k].None?
      ensures CallId(k) in t.pending && t.pending[CallId(k)] == k
    {
      assert s.calls[k].None? && CallId(k) in s.pending && s.pending[CallId(k)] == k;
    }
  }

  lemma StepFail(s: ClientState, outcome: Outcome)
    requires Correlated(s)
    ensures InRange(s) && Correlated(FailAll(s, outcome))
    ensures forall k :: 0 <= k < |s.calls| ==>
              FailAll(s, outcome).calls[k] == if s.calls[k].Some? then s.calls[k] else Some(outcome)
  {
    hide CallId;
    forall k | 0 <= k < |s.calls|
      ensures s.calls[k].None? ==> k in s.pending.Values
    {
      if s.calls[k].None? {
        assert CallId(k) in s.pending && s.pending[CallId(k)] == k;
      }
    }
  }

  lemma CorrelatedInRange(s: ClientState)
    requires Correlated(s)
    ensures InRange(s)
  {
  }

  lemma {:induction false} RunCorrelated(s: ClientState, events: seq<Event>)
    requires InRange(s) && Correlated(s) && Clean(s, events)
    ensures Correlated(Run(s, events))
    ensures |Run(s, events).calls| == |s.calls| + CallsIn(events)
    decreases |events|
  {
    hide Step, Settles, Correlated, InRange, Disturbs;
    if events != [] {
      StepSettles(s, events[0]);
      RunCorrelated(Step(s, events[0]), events[1..]);
    }
  }

  /** A reply takes the entry of its id, even of a call that is done already; it ends that call if it waits, touches no other,
      and without an entry it does nothing. */
  lemma RespondExactly(s: ClientState, id: string, outcome: Outcome)
    requires InRange(s)
    ensures var t := Step(s, Respond(id, outcome));
            && t.nextId == s.nextId && t.pending == s.pending - {id} && |t.calls| == |s.calls|
            && forall k :: 0 <= k < |s.calls| ==>
                 t.calls[k] == if id in s.pending && s.pending[id] == k && s.calls[k].None? then Some(outcome) else s.calls[k]
  {
    if id !in s.pending {
      assert s.pending - {id} == s.pending;
    }
  }

  /** Every entry of the table is filed under its call's id, and its call waits or was cancelled by its caller. */
  ghost predicate Tidy(s: ClientState) {
    && InRange(s)
    && s.nextId == |s.calls| % ID_SPACE
    && forall id :: id in s.pending ==>
         id == CallId(s.pending[id]) && (s.calls[s.pending[id]].None? || s.calls[s.pending[id]] == Some(Cancelled))
  }

  lemma StepTidy(s: ClientState, e: Event)
    requires Tidy(s)
    ensures Tidy(Step(s, e))
  {
    hide Text.NatText;
  }

  /** So it is in every run, wrapped ids or not: a call that is done by a reply, by giving up or by a lost connection keeps
      no entry. */
  lemma {:induction false} RunTidy(s: ClientState, events: seq<Event>)
    requires Tidy(s)
    ensures Tidy(Run(s, events))
    decreases |events|
  {
    hide Step, Tidy;
    if events != [] {
      StepTidy(s, events[0]);
      assert Tidy(s) ==> InRange(s) by { TidyInRange(s); }
      RunTidy(Step(s, events[0]), events[1..]);
    }
  }

  lemma TidyInRange(s: ClientState)
    ensures Tidy(s) ==> InRange(s)
  {
  }

  /** In every run, of any length, in which no event disturbs another waiting call: each call ends as the first event that
      concerns it says, at most once, by a reply with its own id only, whatever else arrives before, after or twice. */
  lemma {:induction false} RunIsVerdict(s: ClientState, events: seq<Event>, k: nat)
    requires InRange(s) && Correlated(s) && Clean(s, events)
    requires k < |s.calls| + CallsIn(events)
    ensures k < |Run(s, events).calls|
    ensures Run(s, events).calls[k] ==
            if k < |s.calls| && s.calls[k].Some? then s.calls[k] else Verdict(k, |s.calls|, events)
    decreases |events|
  {
    hide Step, Settles, Correlated, InRange, Disturbs;
    RunCorrelated(s, events);
    if events != [] {
      StepSettles(s, events[0]);
      OneCall(events);
      RunIsVerdict(Step(s, events[0]), events[1..], k);
    }
  }

  lemma OneCall(events: seq<Event>)
    requires events != []
    ensures CallsIn(events[..1]) == if events[0].Start? then 1 else 0
  {
    assert events[..1][1..] == [];
  }

  /** Runs of at most 2^32 calls are such runs: no two of their calls have the same id. */
  lemma {:induction false} FewCallsClean(s: ClientState, events: seq<Event>)
    requires InRange(s) && Correlated(s) && |s.calls| + CallsIn(events) <= ID_SPACE
    ensures Clean(s, events)
    decreases |events|
  {
    hide Step, Correlated, InRange, Disturbs;
    if events != [] {
      NoDisturbance(s, events[0]);
      StepSettles(s, events[0]);
      FewCallsClean(Step(s, events[0]), events[1..]);
    }
  }

  /** While ids have not wrapped, no event takes the entry of another call. */
  lemma NoDisturbance(s: ClientState, e: Event)
    requires InRange(s) && Correlated(s) && |s.calls| + (if e.Start? then 1 else 0) <= ID_SPACE
    ensures !Disturbs(s, e)
  {
    hide Correlated, Disturbs;
    DisturbsExactly(s, e);
  }

  lemma {:induction false} CallsInStarts(n: nat)
    ensures CallsIn(Starts(n)) == n
  {
    if n > 0 {
      assert Starts(n)[1..] == Starts(n - 1);
      CallsInStarts(n - 1);
    }
  }

  /** One call of a batch of `n` that starts in this state: it ends as the first later event that concerns it says. */
  lemma BatchCall(s: ClientState, n: nat, after: seq<Event>, k: nat)
    requires InRange(s) && Correlated(s) && Clean(s, Starts(n)) && Clean(Run(s, Starts(n)), after)
    requires |s.calls| <= k < |s.calls| + n
    ensures k < |Run(Run(s, Starts(n)), after).calls|
    ensures Run(Run(s, Starts(n)), after).calls[k] == Verdict(k, |s.calls| + n, after)
  {
    hide Verdict, Step, InRange, Correlated, Run, Starts, CallsIn, Disturbs;
    CallsInStarts(n);
    RunCorrelated(s, Starts(n));
    StartsSettleNothing(k, |s.calls|, n);
    RunIsVerdict(s, Starts(n), k);
    RunIsVerdict(Run(s, Starts(n)), after, k);
  }

  /** The order of replies does not show in a batch: call `i` of the batch has the grid of the first later event
      that concerns it, so the results collected in call order are these grids in call order. */
  lemma BatchInCallOrder(s: ClientState, n: nat, after: seq<Event>, grids: seq<Grid>)
    requires InRange(s) && Correlated(s) && Clean(s, Starts(n)) && Clean(Run(s, Starts(n)), after)
    requires |grids| == n
    requires forall i :: 0 <= i < n ==> Verdict(|s.calls| + i, |s.calls| + n, after) == Some(Good(grids[i]))
    ensures |Run(Run(s, Starts(n)), after).calls| >= |s.calls| + n
    ensures Run(Run(s, Starts(n)), after).calls[|s.calls|..|s.calls| + n] == seq(n, i requires 0 <= i < n => Some(Good(grids[i])))
  {
    hide Verdict, Step, InRange, Correlated, Run, Starts, CallsIn, Clean, Disturbs;
    CallsInStarts(n);
    RunCorrelated(s, Starts(n));
    RunCorrelated(Run(s, Starts(n)), after);
    var calls := Run(Run(s, Starts(n)), after).calls;
    forall i | 0 <= i < n
      ensures calls[|s.calls| + i] == Some(Good(grids[i]))
    {
      BatchCall(s, n, after, |s.calls| + i);
    }
  }

  lemma {:induction false} StartsSettleNothing(k: nat, started: nat, n: nat)
    ensures Verdict(k, started, Starts(n)).None?
    decreases n
  {
    if n > 0 {
      assert Starts(n)[1..] == Starts(n - 1);
      StartsSettleNothing(k, started + CallsIn(Starts(n)[..1]), n - 1);
    }
  }

  // ---- A call that loses its entry ------------------------------------------------------------------------

  /** A waiting call loses its entry to a new one exactly when it is a multiple of 2^32 calls back. */
  lemma StartOrphansExactly(s: ClientState, k: nat)
    requires InRange(s) && Correlated(s) && k < |s.calls| && s.calls[k].None?
    ensures k !in Step(s, Start).pending.Values <==> k % ID_SPACE == |s.calls| % ID_SPACE
  {
    hide CallId, Text.NatText;
    NextIdIs(s);
    SameId(k, |s.calls|);
    var t := Step(s, Start);
    if k % ID_SPACE != |s.calls| % ID_SPACE {
      assert t.pending[CallId(k)] == k;
    } else {
      forall id | id in t.pending
        ensures t.pending[id] != k
      {
      }
    }
  }

  /** What the caller itself does is all that such a call still sees. */
  function OwnVerdict(k: nat, events: seq<Event>): Option<Outcome> {
    if events == [] then None
    else if events[0] == GiveUp(k) then Some(GaveUp)
    else if events[0] == CancelCaller(k) then Some(Cancelled)
    else OwnVerdict(k, events[1..])
  }

  /** Without an entry a waiting call is out of reach: no reply, not even one with its id, and no failure of the connection
      ends it, in any continuation. */
  lemma {:induction false} Orphaned(s: ClientState, k: nat, events: seq<Event>)
    requires InRange(s) && k < |s.calls| && s.calls[k].None? && k !in s.pending.Values
    ensures k < |Run(s, events).calls| && Run(s, events).calls[k] == OwnVerdict(k, events)
    decreases |events|
  {
    if events != [] {
      hide InRange, Text.NatText, CallId;
      var t := Step(s, events[0]);
      OrphanStep(s, k, events[0]);
      if t.calls[k].None? {
        Orphaned(t, k, events[1..]);
      } else {
        DoneStays(t, k, events[1..]);
      }
    }
  }

  lemma OrphanStep(s: ClientState, k: nat, e: Event)
    requires InRange(s) && k < |s.calls| && s.calls[k].None? && k !in s.pending.Values
    ensures |Step(s, e).calls| >= |s.calls| && k !in Step(s, e).pending.Values
    ensures Step(s, e).calls[k] == OwnVerdict(k, [e])
  {
    hide Text.NatText, CallId;
    var t := Step(s, e);
    forall id | id in t.pending
      ensures t.pending[id] != k
    {
    }
    assert OwnVerdict(k, [e][1..]) == None;
  }

  /** A call that is done stays as it is, in every continuation whatever. */
  lemma {:induction false} DoneStays(s: ClientState, k: nat, events: seq<Event>)
    requires InRange(s) && k < |s.calls| && s.calls[k].Some?
    ensures k < |Run(s, events).calls| && Run(s, events).calls[k] == s.calls[k]
    decreases |events|
  {
    if events != [] {
      DoneStays(Step(s, events[0]), k, events[1..]);
    }
  }

  /** Call number 2^32 overwrites the first if that one still waits: a reply with its id then ends the new call. */
  lemma WrapOverwrites(s: ClientState, outcome: Outcome)
    requires InRange(s) && Correlated(s) && |s.calls| == ID_SPACE && s.calls[0].None?
    ensures Disturbs(s, Start)
    ensures var t := Step(Step(s, Start), Respond(CallId(0), outcome));
            |t.calls| == ID_SPACE + 1 && t.calls[0].None? && t.calls[ID_SPACE] == Some(outcome) && 0 !in t.pending.Values
  {
    hide CallId, Text.NatText;
    NextIdIs(s);
    SameId(0, |s.calls|);
    StartOrphansExactly(s, 0);
    OrphanStep(Step(s, Start), 0, Respond(CallId(0), outcome));
  }
}

/** What JSON replies do to the calls of a client: envelopes with encoded grids, alone and in batches. */
module WsReplies {
  import opened Results
  import opened Kinds
  import opened Json
  import opened JsonDecode
  import opened WsClient
  import JsonRoundTrip

  /** A reply: `{"id": ..., "grid": ...}`. */
  function Reply(id: string, g: Grid): Json { JObj([Member("id", JStr(id)), Member("grid", EncodedGrid(g))]) }

  ghost predicate HasTag(tags: seq<Tag>, name: string) { exists i :: 0 <= i < |tags| && tags[i].name == name }

  /** How a call ends that gets this grid: an error grid's message, if it has `err`, or the grid as the codec gives it back. */
  ghost function Ending(g: Grid): Outcome {
    if !HasTag(g.meta, "err") then Good(NormGrid(g))
    else if HasTag(g.meta, "dis") then CallError(Norm(Get(g.meta, "dis")))
    else CallError(Str("Unknown error"))
  }

  /** A grid that the codec carries. */
  ghost predicate Carried(g: Grid) { WellFormedGrid(g) && NoKindInGrid(g) && GridFits(g, 0) }

  lemma {:induction false} NormFind(tags: seq<Tag>, name: string)
    ensures Find(NormTags(tags), name) == Find(tags, name)
  {
    hide Norm;
    if tags != [] {
      NormFind(tags[1..], name);
      assert NormTags(tags)[1..] == NormTags(tags[1..]);
    }
  }

  lemma {:induction false} NormAt(tags: seq<Tag>, i: nat)
    requires i < |tags|
    ensures i < |NormTags(tags)| && NormTags(tags)[i] == Tag(tags[i].name, Norm(tags[i].val))
  {
    hide Norm;
    if i > 0 {
      NormAt(tags[1..], i - 1);
    }
  }

  lemma NormKeepsTags(tags: seq<Tag>, name: string)
    ensures Find(NormTags(tags), name).Some? <==> HasTag(tags, name)
    ensures Get(NormTags(tags), name) == Norm(Get(tags, name))
  {
    hide NormTags, Find;
    NormFind(tags, name);
    match Find(tags, name)
    case None =>
    case Some(i) => NormAt(tags, i);
  }

  /** A reply settles the call of its id with that ending. */
  lemma ReplyEvents(id: string, g: Grid)
    requires Carried(g)
    ensures EnvelopeEvents(Reply(id, g)) == [Respond(id, Ending(g))]
  {
    hide DecodedGrid, EncodedGrid, NormTags, Norm, HasTag, Get, Find, WellFormedGrid, NoKindInGrid, GridFits;
    JsonRoundTrip.PairFields(Member("id", JStr(id)), Member("grid", EncodedGrid(g)));
    JsonRoundTrip.GridRoundTrip(g, 0);
    NormKeepsTags(g.meta, "err");
    NormKeepsTags(g.meta, "dis");
  }

  datatype Answer = Answer(id: string, grid: Grid)

  function Replies(answers: seq<Answer>): seq<Json> {
    if answers == [] then [] else [Reply(answers[0].id, answers[0].grid)] + Replies(answers[1..])
  }

  ghost function Responses(answers: seq<Answer>): seq<Event> {
    if answers == [] then [] else [Respond(answers[0].id, Ending(answers[0].grid))] + Responses(answers[1..])
  }

  /** A batch of replies acts as these replies one after the other; from an item that is no envelope on it is lost. */
  lemma {:induction false} BatchMeans(answers: seq<Answer>, rest: seq<Json>)
    requires forall i :: 0 <= i < |answers| ==> Carried(answers[i].grid)
    requires rest != [] ==> EnvelopeEvents(rest[0]) == [Lost]
    ensures MessageEvents(JArr(Replies(answers) + rest)) == Responses(answers) + if rest == [] then [] else [Lost]
    decreases |answers|
  {
    hide Carried, EnvelopeEvents, Reply, Ending;
    var items := Replies(answers) + rest;
    if answers == [] {
      assert items == rest;
    } else {
      ReplyEvents(answers[0].id, answers[0].grid);
      BatchMeans(answers[1..], rest);
      assert items[1..] == Replies(answers[1..]) + rest;
    }
  }

  /** Nobody's reply: an envelope whose id is null or a number; a watch push is none either. */
  lemma NoReply(members: seq<Member>)
    requires Field(members, "type", JNull) == JStr("watch")
             || Field(members, "id", JNull).JNull? || Field(members, "id", JNull).JNum? || Field(members, "id", JNull).JBool?
    ensures MessageEvents(JObj(members)) == []
  {
  }

  /** No object, or an id that cannot be a key, ends the receive loop. */
  lemma NoEnvelope(msg: Json)
    requires !msg.JObj? || Field(msg.members, "id", JNull).JArr? || Field(msg.members, "id", JNull).JObj?
    ensures EnvelopeEvents(msg) == [Lost]
  {
  }

  /** A waiting call ends by the reply with its id, as the grid in it says; no other call is touched, and its entry is gone. */
  lemma ReplyEndsCall(s: ClientState, k: nat, g: Grid)
    requires InRange(s) && Correlated(s) && k < |s.calls| && s.calls[k].None? && Carried(g)
    ensures var t := Run(s, MessageEvents(Reply(CallId(k), g)));
            t.calls == s.calls[k := Some(Ending(g))] && t.pending == s.pending - {CallId(k)}
  {
    hide Carried, Ending, CallId, EnvelopeEvents;
    ReplyEvents(CallId(k), g);
    JsonRoundTrip.PairFields(Member("id", JStr(CallId(k))), Member("grid", EncodedGrid(g)));
    var e := Respond(CallId(k), Ending(g));
    assert MessageEvents(Reply(CallId(k), g)) == [e];
    assert [e][1..] == [];
    assert Run(s, [e]) == Run(Step(s, e), []);
  }
}

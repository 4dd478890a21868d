/**
 Chunk reassembly: a mutable assembler keyed by request id and operation, and what it
 returns over whole runs of deliveries.
 */
module ChunkAssembly {
  import opened Results
  import opened WsCodec

  datatype Key = Key(reqId: nat, op: string)

  /** The value of one `_ChunkBuffer`. */
  datatype Buffer = Buffer(total: nat, chunks: map<nat, Bytes>, created: real)

  type State = map<Key, Buffer>

  function Parts(chunks: map<nat, Bytes>, total: nat): seq<Bytes>
    requires forall i :: 0 <= i < total ==> i in chunks
  {
    seq(total, (i: int) requires 0 <= i < total => chunks[i])
  }

  /** `set(range(total))` */
  function Indices(total: nat): (r: set<nat>)
    ensures forall i: nat :: i in r <==> i < total
    ensures |r| == total
  {
    if total == 0 then {} else Indices(total - 1) + {total - 1}
  }

  // ---- One call of `feed`, on values ------------------------------------------

  datatype Fed = Fed(result: Result<Option<Bytes>, Error>, state: State)

  /** The key's buffer with the chunk stored; the first chunk opens the buffer and fixes its total. */
  function Grown(st: State, key: Key, chunk: Chunk, now: real): Buffer {
    var buf := if key in st then st[key] else Buffer(chunk.total, map[], now);
    buf.(chunks := buf.chunks[chunk.idx := chunk.payload])
  }

  /** Release a full buffer, or keep it waiting. */
  function Settled(st: State, key: Key, buf: Buffer): Fed {
    if |buf.chunks| == buf.total then
      if buf.chunks.Keys == Indices(buf.total)
      then Fed(Ok(Some(Join(Parts(buf.chunks, buf.total)))), st - {key})
      else Fed(Err(ChunkGaps), st - {key})
    else Fed(Ok(None), st[key := buf])
  }

  lemma SettledIgnoresOldSlot(st: State, key: Key, buf: Buffer)
    ensures Settled(st[key := buf], key, buf) == Settled(st, key, buf)
  {
    hide Join, Indices;
    assert st[key := buf] - {key} == st - {key};
  }

  /** The slot of the key, once it holds the chunk. */
  lemma GrownInSlot(st: State, key: Key, chunk: Chunk, now: real)
    ensures var slot := if key in st then st else st[key := Buffer(chunk.total, map[], now)];
            slot[key := slot[key].(chunks := slot[key].chunks[chunk.idx := chunk.payload])]
            == st[key := Grown(st, key, chunk, now)]
  {
  }

  function FeedChunk(st: State, key: Key, chunk: Chunk, now: real): Fed {
    Settled(st, key, Grown(st, key, chunk, now))
  }

  function FeedParsed(st: State, key: Key, parsed: Result<Chunk, Error>, now: real): Fed {
    match parsed
    case Err(e) => Fed(Err(e), st)
    case Ok(chunk) => FeedChunk(st, key, chunk, now)
  }

  /** A chunk touches no other buffer. Its own waits as long as it holds another number of chunks than announced; with that
      number it is gone, and its payload comes out if it has every index below. */
  lemma FeedExactly(st: State, key: Key, chunk: Chunk, now: real)
    ensures var slot := if key in st then st[key] else Buffer(chunk.total, map[], now);
            var chunks := slot.chunks[chunk.idx := chunk.payload];
            Placed(st, key, Buffer(slot.total, chunks, slot.created), FeedChunk(st, key, chunk, now))
  {
    hide Settled, Placed;
    SettledExactly(st, key, Grown(st, key, chunk, now));
  }

  /** What becomes of a buffer with one more chunk. */
  ghost predicate Placed(st: State, key: Key, buf: Buffer, fed: Fed) {
    && fed.state - {key} == st - {key}
    && if |buf.chunks| != buf.total then
         key in fed.state && fed.state[key] == buf && fed.result == Ok(None)
       else
         && key !in fed.state
         && fed.result == if forall i :: 0 <= i < buf.total ==> i in buf.chunks
                          then Ok(Some(Join(Parts(buf.chunks, buf.total)))) else Err(ChunkGaps)
  }

  lemma SlotsApart(st: State, key: Key, buf: Buffer)
    ensures st[key := buf] - {key} == st - {key} && (st - {key}) - {key} == st - {key}
  {
  }

  lemma SettledExactly(st: State, key: Key, buf: Buffer)
    ensures Placed(st, key, buf, Settled(st, key, buf))
  {
    hide Join, Parts, Indices;
    SlotsApart(st, key, buf);
    if |buf.chunks| == buf.total {
      FullExactly(buf.chunks, buf.total);
    }
  }

  lemma FullExactly(chunks: map<nat, Bytes>, total: nat)
    requires |chunks| == total
    ensures chunks.Keys == Indices(total) <==> forall i :: 0 <= i < total ==> i in chunks
  {
    hide Indices;
    assert |chunks.Keys| == total;
    if forall i :: 0 <= i < total ==> i in chunks {
      FullKeys(chunks.Keys, total);
    }
  }

  /** As many keys as indices, and all of these among them. */
  lemma FullKeys(keys: set<nat>, total: nat)
    requires |keys| == total && forall i :: 0 <= i < total ==> i in keys
    ensures keys == Indices(total)
  {
    var more := keys - Indices(total);
    assert keys == Indices(total) + more && Indices(total) !! more;
    assert |keys| == |Indices(total)| + |more|;
  }

  function DropExpired(st: State, ttl: real, now: real): State {
    map key | key in st && !(now - st[key].created > ttl) :: st[key]
  }

  // ---- The assembler object ---------------------------------------------------

  class ChunkBuffer {
    const total: nat
    const created: real
    var chunks: map<nat, Bytes>

    constructor (total: nat, now: real)
      ensures this.total == total && created == now && chunks == map[]
    {
      this.total := total;
      created := now;
      chunks := map[];
    }

    function Value(): Buffer
      reads this
    {
      Buffer(total, chunks, created)
    }
  }

  class ChunkAssembler {
    const ttl: real
    var pending: map<Key, ChunkBuffer>
    ghost var Contents: State

    /** `Contents` is the value of `pending`, and no buffer is shared between two keys. */
    ghost predicate Valid()
      reads this, pending.Values
    {
      && pending.Keys == Contents.Keys
      && (forall k :: k in pending ==> pending[k].Value() == Contents[k])
      && (forall j, k :: j in pending && k in pending && pending[j] == pending[k] ==> j == k)
    }

    constructor (ttl: real)
      ensures Valid() && Contents == map[] && this.ttl == ttl
    {
      this.ttl := ttl;
      pending := map[];
      Contents := map[];
    }

    method Feed(c: Compression, flags: nat, reqId: nat, op: string, chunkData: Bytes, now: real)
      returns (r: Result<Option<Bytes>, Error>)
      requires Valid()
      modifies this, pending.Values
      ensures Valid()
      ensures var fed := FeedParsed(old(Contents), Key(reqId, op), ParseChunk(c, flags, chunkData), now);
              r == fed.result && Contents == fed.state
    {
      hide ParseChunk, Settled, Grown;
      ghost var before := Contents;
      var parsed := ParseChunk(c, flags, chunkData);
      if parsed.Err? {
        return Err(parsed.error);
      }
      var chunk := parsed.value;
      var key := Key(reqId, op);
      var buf := Slot(key, chunk.total, now);
      Store(key, buf, chunk.idx, chunk.payload);
      GrownInSlot(before, key, chunk, now);
      SettledIgnoresOldSlot(before, key, Grown(before, key, chunk, now));
      r := Settle(key, buf);
    }

    /** The buffer of a key, opened for `total` chunks when there is none. */
    method Slot(key: Key, total: nat, now: real) returns (buf: ChunkBuffer)
      requires Valid()
      modifies this
      ensures Valid() && key in pending && pending[key] == buf
      ensures fresh(buf) || buf in old(pending.Values)
      ensures Contents == if key in old(Contents) then old(Contents)
                          else old(Contents)[key := Buffer(total, map[], now)]
    {
      if key in pending {
        buf := pending[key];
      } else {
        buf := new ChunkBuffer(total, now);
        pending := pending[key := buf];
        Contents := Contents[key := Buffer(total, map[], now)];
      }
    }

    method Store(key: Key, buf: ChunkBuffer, idx: nat, payload: Bytes)
      requires Valid() && key in pending && pending[key] == buf
      modifies `Contents, buf
      ensures Valid()
      ensures Contents == old(Contents)[key := old(Contents[key].(chunks := Contents[key].chunks[idx := payload]))]
    {
      buf.chunks := buf.chunks[idx := payload];
      Contents := Contents[key := buf.Value()];
    }

    /** Release the buffer when it is full, or keep it waiting. */
    method Settle(key: Key, buf: ChunkBuffer) returns (r: Result<Option<Bytes>, Error>)
      requires Valid() && key in pending && pending[key] == buf
      modifies this
      ensures Valid()
      ensures var fed := Settled(old(Contents), key, old(Contents)[key]);
              r == fed.result && Contents == fed.state
    {
      hide Join, Indices;
      if |buf.chunks| == buf.total {
        pending := pending - {key};
        Contents := Contents - {key};
        if buf.chunks.Keys != Indices(buf.total) {
          return Err(ChunkGaps);
        }
        return Ok(Some(Join(Parts(buf.chunks, buf.total))));
      }
      return Ok(None);
    }

    /** Exactly the buffers no older than the lifetime stay, as they are. */
    method Cleanup(now: real)
      requires Valid()
      modifies this
      ensures Valid() && Contents == DropExpired(old(Contents), ttl, now)
      ensures forall k :: k in Contents <==> k in old(Contents) && now - old(Contents)[k].created <= ttl
      ensures forall k :: k in Contents ==> Contents[k] == old(Contents)[k]
    {
      var expired := set key | key in pending && now - pending[key].created > ttl;
      var todo := expired;
      while todo != {}
        invariant todo <= pending.Keys && pending.Keys == old(pending.Keys) - (expired - todo)
        invariant forall k :: k in pending ==> pending[k] == old(pending)[k]
        invariant Contents == old(Contents)
      {
        var key :| key in todo;
        pending := pending - {key};
        todo := todo - {key};
      }
      Contents := DropExpired(Contents, ttl, now);
    }
  }

  // ---- Runs -------------------------------------------------------------------

  /** What a receive loop hands to the codec, with the clock at that moment. */
  datatype Event =
    | Deliver(data: Bytes, at: real)
    | Sweep(at: real)

  datatype Output =
    | Quiet                                  // nothing for the caller yet
    | Whole(frame: Frame)                    // an unchunked frame, passed on as it is
    | Assembled(key: Key, payload: Bytes)    // a reassembled payload
    | Failed(error: Error)

  datatype Moved = Moved(output: Output, state: State)

  /** How a receive loop reads one binary message. */
  datatype Arrival =
    | Malformed(error: Error)
    | Plain(frame: Frame)
    | Piece(key: Key, parsed: Result<Chunk, Error>)

  function Classify(c: Compression, data: Bytes): Arrival {
    match DecodeBinaryFrame(c, data)
    case Err(error) => Malformed(error)
    case Ok(frame) =>
      if IsChunked(frame.flags)
      then Piece(Key(frame.reqId, frame.op), ParseChunk(c, frame.flags, frame.body))
      else Plain(frame)
  }

  /** Decode a binary frame and, when it is chunked, feed it to the assembler. */
  function Step(c: Compression, ttl: real, st: State, e: Event): Moved {
    match e
    case Sweep(now) => Moved(Quiet, DropExpired(st, ttl, now))
    case Deliver(data, now) =>
      match Classify(c, data)
      case Malformed(error) => Moved(Failed(error), st)
      case Plain(frame) => Moved(Whole(frame), st)
      case Piece(key, parsed) =>
        var fed := FeedParsed(st, key, parsed, now);
        Moved(Report(key, fed.result), fed.state)
  }

  function Report(key: Key, r: Result<Option<Bytes>, Error>): Output {
    match r
    case Err(error) => Failed(error)
    case Ok(None) => Quiet
    case Ok(Some(payload)) => Assembled(key, payload)
  }

  function StateAfter(c: Compression, ttl: real, st: State, evs: seq<Event>): State {
    if evs == [] then st
    else Step(c, ttl, StateAfter(c, ttl, st, evs[..|evs| - 1]), evs[|evs| - 1]).state
  }

  /** The output of event `k` of a run. */
  function OutputAt(c: Compression, ttl: real, st: State, evs: seq<Event>, k: nat): Output
    requires k < |evs|
  {
    Step(c, ttl, StateAfter(c, ttl, st, evs[..k]), evs[k]).output
  }

  /** The event delivers a chunked frame under this key, well formed or not. */
  predicate Addressed(c: Compression, e: Event, key: Key) {
    e.Deliver? && var arrival := Classify(c, e.data); arrival.Piece? && arrival.key == key
  }

  /** The chunk an event carries for `key`, if it carries one. */
  function ChunkFor(c: Compression, e: Event, key: Key): Option<Chunk> {
    if Addressed(c, e, key) && Classify(c, e.data).parsed.Ok?
    then Some(Classify(c, e.data).parsed.value)
    else None
  }

  // ---- Safety: any payload ever returned is made of delivered chunks ----------

  /** Event `o` opened the key's buffer with a chunk that announced this total, the buffer was there ever since, and no sweep
      since then came later than the lifetime allows. */
  ghost predicate OpenSince(c: Compression, ttl: real, evs: seq<Event>, key: Key, o: nat, total: nat) {
    && o < |evs|
    && key !in StateAfter(c, ttl, map[], evs[..o])
    && ChunkFor(c, evs[o], key).Some? && ChunkFor(c, evs[o], key).value.total == total
    && (forall j :: o < j < |evs| ==> key in StateAfter(c, ttl, map[], evs[..j]))
    && forall j :: o < j < |evs| && evs[j].Sweep? ==> evs[j].at - evs[o].at <= ttl
  }

  /** Some event from `o` on delivered this chunk. */
  ghost predicate DeliveredSince(c: Compression, evs: seq<Event>, key: Key, o: nat, idx: nat, payload: Bytes) {
    exists k :: o <= k < |evs| && ChunkFor(c, evs[k], key).Some? &&
                ChunkFor(c, evs[k], key).value.idx == idx && ChunkFor(c, evs[k], key).value.payload == payload
  }

  ghost predicate ChunksSince(c: Compression, ttl: real, evs: seq<Event>, key: Key, o: nat, buf: Buffer) {
    && OpenSince(c, ttl, evs, key, o, buf.total) && buf.created == evs[o].at
    && forall i :: i in buf.chunks ==> DeliveredSince(c, evs, key, o, i, buf.chunks[i])
  }

  /** The buffer was opened by some event and filled by the deliveries since. */
  ghost predicate Sourced(c: Compression, ttl: real, evs: seq<Event>, key: Key, buf: Buffer) {
    exists o: nat :: ChunksSince(c, ttl, evs, key, o, buf)
  }

  /** The payload joins one chunk for each index below the total that the opening chunk announced, all of them
      delivered since the buffer was opened. */
  ghost predicate MadeOfDelivered(c: Compression, ttl: real, evs: seq<Event>, key: Key, payload: Bytes) {
    exists o: nat, parts: seq<Bytes> ::
      && payload == Join(parts) && OpenSince(c, ttl, evs, key, o, |parts|)
      && forall i :: 0 <= i < |parts| ==> DeliveredSince(c, evs, key, o, i, parts[i])
  }

  lemma SourcedExtends(c: Compression, ttl: real, evs: seq<Event>, e: Event, key: Key, buf: Buffer)
    requires key in StateAfter(c, ttl, map[], evs) && Sourced(c, ttl, evs, key, buf)
    requires e.Sweep? ==> e.at - buf.created <= ttl
    ensures Sourced(c, ttl, evs + [e], key, buf)
  {
    hide ChunkFor, StateAfter;
    var all := evs + [e];
    var o: nat :| ChunksSince(c, ttl, evs, key, o, buf);
    forall j | 0 <= j <= |evs|
      ensures all[..j] == evs[..j]
    {
    }
    assert evs[..|evs|] == evs;
    forall i | i in buf.chunks
      ensures DeliveredSince(c, all, key, o, i, buf.chunks[i])
    {
      var k :| o <= k < |evs| && ChunkFor(c, evs[k], key).Some? &&
               ChunkFor(c, evs[k], key).value.idx == i && ChunkFor(c, evs[k], key).value.payload == buf.chunks[i];
      assert all[k] == evs[k];
    }
    assert all[o] == evs[o];
    assert ChunksSince(c, ttl, all, key, o, buf);
  }

  /** The buffer that an arriving chunk makes is sourced, whether it opens the buffer or adds to it. */
  lemma GrownSourced(c: Compression, ttl: real, evs: seq<Event>, e: Event, key: Key, chunk: Chunk)
    requires e.Deliver? && ChunkFor(c, e, key) == Some(chunk)
    requires var st := StateAfter(c, ttl, map[], evs);
             key in st ==> Sourced(c, ttl, evs, key, st[key])
    ensures Sourced(c, ttl, evs + [e], key, Grown(StateAfter(c, ttl, map[], evs), key, chunk, e.at))
  {
    hide ChunkFor, StateAfter;
    var st, all := StateAfter(c, ttl, map[], evs), evs + [e];
    var buf := Grown(st, key, chunk, e.at);
    assert all[|evs|] == e && all[..|evs|] == evs;
    if key in st {
      SourcedExtends(c, ttl, evs, e, key, st[key]);
      var o: nat :| ChunksSince(c, ttl, all, key, o, st[key]);
      assert DeliveredSince(c, all, key, o, chunk.idx, chunk.payload);
      assert ChunksSince(c, ttl, all, key, o, buf);
    } else {
      assert DeliveredSince(c, all, key, |evs|, chunk.idx, chunk.payload);
      assert ChunksSince(c, ttl, all, key, |evs|, buf);
    }
  }

  /** A sourced buffer that is full is released as its parts. */
  lemma FullIsMade(c: Compression, ttl: real, evs: seq<Event>, key: Key, buf: Buffer)
    requires Sourced(c, ttl, evs, key, buf) && buf.chunks.Keys == Indices(buf.total)
    ensures MadeOfDelivered(c, ttl, evs, key, Join(Parts(buf.chunks, buf.total)))
  {
    hide ChunkFor, Join, StateAfter, OpenSince;
    var o: nat :| ChunksSince(c, ttl, evs, key, o, buf);
    var parts := Parts(buf.chunks, buf.total);
    assert forall i :: 0 <= i < |parts| ==> DeliveredSince(c, evs, key, o, i, parts[i]);
  }

  ghost predicate AllSourced(c: Compression, ttl: real, evs: seq<Event>, st: State) {
    forall key :: key in st ==> Sourced(c, ttl, evs, key, st[key])
  }

  /** Feeding keeps every buffer sourced, and releases only what such a buffer holds. */
  lemma FeedSourced(c: Compression, ttl: real, evs: seq<Event>, st: State, key: Key, chunk: Chunk, now: real)
    requires AllSourced(c, ttl, evs, st) && Sourced(c, ttl, evs, key, Grown(st, key, chunk, now))
    ensures var fed := FeedChunk(st, key, chunk, now);
            && AllSourced(c, ttl, evs, fed.state)
            && (fed.result.Ok? && fed.result.value.Some? ==> MadeOfDelivered(c, ttl, evs, key, fed.result.value.value))
  {
    hide Sourced, MadeOfDelivered, Join, Parts, Grown;
    var buf := Grown(st, key, chunk, now);
    if buf.chunks.Keys == Indices(buf.total) {
      FullIsMade(c, ttl, evs, key, buf);
    }
  }

  lemma StepSourced(c: Compression, ttl: real, evs: seq<Event>, e: Event)
    requires AllSourced(c, ttl, evs, StateAfter(c, ttl, map[], evs))
    ensures var moved := Step(c, ttl, StateAfter(c, ttl, map[], evs), e);
            && AllSourced(c, ttl, evs + [e], moved.state)
            && (moved.output.Assembled? ==> MadeOfDelivered(c, ttl, evs + [e], moved.output.key, moved.output.payload))
  {
    hide StateAfter, Sourced, MadeOfDelivered, FeedChunk, Classify, Grown;
    var st := StateAfter(c, ttl, map[], evs);
    forall key | key in st && (e.Sweep? ==> e.at - st[key].created <= ttl)
      ensures Sourced(c, ttl, evs + [e], key, st[key])
    {
      SourcedExtends(c, ttl, evs, e, key, st[key]);
    }
    if e.Deliver? && Classify(c, e.data).Piece? && Classify(c, e.data).parsed.Ok? {
      var key, chunk := Classify(c, e.data).key, Classify(c, e.data).parsed.value;
      GrownSourced(c, ttl, evs, e, key, chunk);
      FeedSourced(c, ttl, evs + [e], st, key, chunk, e.at);
    }
  }

  lemma {:induction false} RunSourced(c: Compression, ttl: real, evs: seq<Event>)
    ensures AllSourced(c, ttl, evs, StateAfter(c, ttl, map[], evs))
  {
    hide Step, Sourced;
    if evs != [] {
      var front, e := evs[..|evs| - 1], evs[|evs| - 1];
      RunSourced(c, ttl, front);
      StepSourced(c, ttl, front, e);
      assert evs == front + [e];
    }
  }

  /**
   For arbitrary frames and sweeps in arbitrary order: whatever an assembler that started empty returns is the in-order
   join of one chunk for each index 0..total-1, where `total` is what the chunk that opened the buffer announced, each of
   them delivered under that key since then, with no sweep in between that came more than the lifetime after the opening.
   */
  lemma AssembledOnlyFromDelivered(c: Compression, ttl: real, evs: seq<Event>, k: nat)
    requires k < |evs|
    requires OutputAt(c, ttl, map[], evs, k).Assembled?
    ensures var out := OutputAt(c, ttl, map[], evs, k);
            MadeOfDelivered(c, ttl, evs[..k + 1], out.key, out.payload)
  {
    hide Step, StateAfter, MadeOfDelivered;
    RunSourced(c, ttl, evs[..k]);
    StepSourced(c, ttl, evs[..k], evs[k]);
    assert evs[..k] + [evs[k]] == evs[..k + 1];
  }

  // ---- Liveness: the frames of one payload, in any order ----------------------

  /** A payload being sent in chunks, and the frames it was cut into. */
  datatype Transfer = Transfer(flags: nat, reqId: nat, op: string, payload: Bytes,
                               compression: Option<int>, chunkSize: Pos, frames: seq<Bytes>)
  {
    function Address(): Key { Key(reqId, op) }

    function Total(): nat { ChunkCount(|payload|, chunkSize) }

    ghost predicate Valid(c: Compression) {
      && (IsCompressed(flags) ==> compression.Some?)
      && ChunkedFrames(c, flags, reqId, op, payload, compression, chunkSize) == Ok(frames)
    }
  }

  /** The frame of index `i` parses to chunk `i` of the payload, under the transfer's key. */
  lemma FrameCarriesSlice(c: Compression, t: Transfer, i: nat, at: real)
    requires Lossless(c) && t.Valid(c) && i < t.Total()
    ensures |t.frames| == t.Total()
    ensures ChunkFor(c, Deliver(t.frames[i], at), t.Address())
         == Some(Chunk(i, t.Total(), ChunkSlice(t.payload, t.chunkSize, i)))
  {
    var opcode := RequireOpcode(t.op).value;
    FramesAt(c, t.flags, t.reqId, opcode, t.payload, t.compression, t.chunkSize, t.Total(), i);
    ChunkFrameReadsBack(c, t.flags, t.reqId, t.op, opcode, ChunkSlice(t.payload, t.chunkSize, i), i, t.Total(),
                        t.compression);
  }

  /**
   A delivery schedule: the transfer's own frames in any order and multiplicity, anything at all
   under other keys, and sweeps, all within one time-to-live of the start.
   */
  ghost predicate Schedule(c: Compression, ttl: real, t: Transfer, start: real, evs: seq<Event>) {
    forall k :: 0 <= k < |evs| ==>
      && start <= evs[k].at <= start + ttl
      && (Addressed(c, evs[k], t.Address()) ==> evs[k].data in t.frames)
  }

  /** Indices of the transfer that have been delivered. */
  ghost function Seen(t: Transfer, evs: seq<Event>): set<nat> {
    set i: nat | 0 <= i < |t.frames| && exists k :: 0 <= k < |evs| && evs[k].Deliver? && evs[k].data == t.frames[i]
  }

  ghost function SlicesOf(t: Transfer, seen: set<nat>): map<nat, Bytes> {
    map i | i in seen :: ChunkSlice(t.payload, t.chunkSize, i)
  }

  /** Chunks that were there before, overwritten by the slices seen since. */
  ghost function Patched(t: Transfer, base: map<nat, Bytes>, seen: set<nat>): map<nat, Bytes> {
    map i | i in base.Keys + seen :: if i in seen then ChunkSlice(t.payload, t.chunkSize, i) else base[i]
  }

  /** The buffer of the transfer, which started with the chunks `base`, holds these and the slices seen so far. */
  ghost predicate Holds(t: Transfer, st: State, start: real, base: map<nat, Bytes>, seen: set<nat>)
  {
    if base.Keys + seen == {} then t.Address() !in st
    else t.Address() in st && st[t.Address()].total == t.Total() && st[t.Address()].chunks == Patched(t, base, seen)
         && start <= st[t.Address()].created
  }

  lemma FramesDistinct(c: Compression, t: Transfer, i: nat, j: nat)
    requires Lossless(c) && t.Valid(c) && i < t.Total() && j < t.Total()
    requires |t.frames| == t.Total() && t.frames[i] == t.frames[j]
    ensures i == j
  {
    FrameCarriesSlice(c, t, i, 0.0);
    FrameCarriesSlice(c, t, j, 0.0);
  }

  lemma SeenStep(c: Compression, t: Transfer, evs: seq<Event>, e: Event)
    requires Lossless(c) && t.Valid(c) && |t.frames| == t.Total()
    ensures e.Deliver? && e.data in t.frames ==>
              exists i :: 0 <= i < |t.frames| && t.frames[i] == e.data && Seen(t, evs + [e]) == Seen(t, evs) + {i}
    ensures !(e.Deliver? && e.data in t.frames) ==> Seen(t, evs + [e]) == Seen(t, evs)
  {
    forall i: nat | i < |t.frames|
      ensures i in Seen(t, evs + [e]) <==> i in Seen(t, evs) || (e.Deliver? && e.data == t.frames[i])
    {
      if i in Seen(t, evs) {
        var k :| 0 <= k < |evs| && evs[k].Deliver? && evs[k].data == t.frames[i];
        assert (evs + [e])[k] == evs[k];
      }
      if e.Deliver? && e.data == t.frames[i] {
        assert (evs + [e])[|evs|] == e;
      }
    }
    if e.Deliver? && e.data in t.frames {
      var i :| 0 <= i < |t.frames| && t.frames[i] == e.data;
      forall j: nat | j < |t.frames| && t.frames[j] == e.data
        ensures j == i
      {
        FramesDistinct(c, t, i, j);
      }
      assert Seen(t, evs + [e]) == Seen(t, evs) + {i};
    }
  }

  lemma SubsetFull(seen: set<nat>, n: nat)
    requires seen <= Indices(n)
    ensures |seen| == n <==> seen == Indices(n)
  {
    assert Indices(n) == seen + (Indices(n) - seen);
    assert |Indices(n)| == |seen| + |Indices(n) - seen|;
  }

  /** What a full buffer of the transfer releases. */
  ghost function Mixture(t: Transfer, base: map<nat, Bytes>, seen: set<nat>): Bytes
    requires base.Keys + seen == Indices(t.Total())
  {
    Join(Parts(Patched(t, base, seen), t.Total()))
  }

  /** A buffer of patched chunks waits until every index is there, and is then released. */
  lemma SettlePatched(t: Transfer, st: State, created: real, base: map<nat, Bytes>, seen: set<nat>)
    requires base.Keys + seen <= Indices(t.Total())
    ensures var buf := Buffer(t.Total(), Patched(t, base, seen), created);
            Settled(st, t.Address(), buf) == if base.Keys + seen == Indices(t.Total())
                                             then Fed(Ok(Some(Mixture(t, base, seen))), st - {t.Address()})
                                             else Fed(Ok(None), st[t.Address() := buf])
  {
    hide Join, ChunkSlice, ChunkCount;
    var chunks := Patched(t, base, seen);
    assert chunks.Keys == base.Keys + seen && |chunks| == |chunks.Keys|;
    SubsetFull(base.Keys + seen, t.Total());
  }

  /** Once all of them are slices, the mixture is the payload. */
  lemma SlicesMix(t: Transfer, base: map<nat, Bytes>, seen: set<nat>)
    requires base.Keys + seen == Indices(t.Total()) && base == SlicesOf(t, base.Keys)
    ensures Mixture(t, base, seen) == t.payload
  {
    hide Join, ChunkSlice, ChunkCount, Slices;
    var parts, slices := Parts(Patched(t, base, seen), t.Total()), Slices(t.payload, t.chunkSize, t.Total());
    forall i | 0 <= i < t.Total()
      ensures parts[i] == slices[i]
    {
      assert i in Indices(t.Total());
      if i !in seen {
        assert base[i] == SlicesOf(t, base.Keys)[i];
      }
    }
    assert parts == slices;
    JoinSlices(t.payload, t.chunkSize);
  }

  /** An event that carries a chunk feeds it. */
  lemma StepOfChunk(c: Compression, ttl: real, st: State, e: Event, key: Key, chunk: Chunk)
    requires ChunkFor(c, e, key) == Some(chunk)
    ensures var fed := FeedChunk(st, key, chunk, e.at);
            Step(c, ttl, st, e) == Moved(Report(key, fed.result), fed.state)
  {
    hide FeedChunk, Classify;
  }

  /** One of the transfer's own chunks arrives. */
  lemma OwnChunk(c: Compression, ttl: real, t: Transfer, st: State, start: real, base: map<nat, Bytes>, seen: set<nat>,
                 i: nat, e: Event)
    requires i < t.Total() && base.Keys + seen <= Indices(t.Total()) && start <= e.at
    requires ChunkFor(c, e, t.Address()) == Some(Chunk(i, t.Total(), ChunkSlice(t.payload, t.chunkSize, i)))
    requires Holds(t, st, start, base, seen)
    ensures var moved := Step(c, ttl, st, e);
            if base.Keys + (seen + {i}) == Indices(t.Total())
            then moved.output == Assembled(t.Address(), Mixture(t, base, seen + {i})) && t.Address() !in moved.state
            else moved.output == Quiet && Holds(t, moved.state, start, base, seen + {i})
  {
    hide Step, ChunkFor, Settled, ChunkSlice, ChunkCount, Mixture, Patched, Grown, Indices;
    var chunk := Chunk(i, t.Total(), ChunkSlice(t.payload, t.chunkSize, i));
    StepOfChunk(c, ttl, st, e, t.Address(), chunk);
    var buf := Grown(st, t.Address(), chunk, e.at);
    GrownPatched(t, st, start, base, seen, i, e.at);
    SettlePatched(t, st, buf.created, base, seen + {i});
  }

  /** The chunk is one more slice in the buffer. */
  lemma GrownPatched(t: Transfer, st: State, start: real, base: map<nat, Bytes>, seen: set<nat>, i: nat, now: real)
    requires start <= now && Holds(t, st, start, base, seen)
    ensures var buf := Grown(st, t.Address(), Chunk(i, t.Total(), ChunkSlice(t.payload, t.chunkSize, i)), now);
            buf.total == t.Total() && buf.chunks == Patched(t, base, seen + {i}) && start <= buf.created
  {
    hide ChunkSlice, ChunkCount;
    var buf := Grown(st, t.Address(), Chunk(i, t.Total(), ChunkSlice(t.payload, t.chunkSize, i)), now);
    assert buf.chunks.Keys == base.Keys + (seen + {i});
  }

  /** Anything else leaves the transfer's buffer alone. */
  lemma OtherEvent(c: Compression, ttl: real, t: Transfer, st: State, start: real, base: map<nat, Bytes>, seen: set<nat>,
                   e: Event)
    requires !Addressed(c, e, t.Address()) && start <= e.at <= start + ttl
    requires Holds(t, st, start, base, seen)
    ensures var moved := Step(c, ttl, st, e);
            Holds(t, moved.state, start, base, seen) && !(moved.output.Assembled? && moved.output.key == t.Address())
  {
    hide Step, Classify, ChunkCount, Patched;
    EventElsewhere(c, ttl, st, e, t.Address());
  }

  /** An event that does not carry the key leaves its buffer alone, unless it is a sweep past its lifetime. */
  lemma EventElsewhere(c: Compression, ttl: real, st: State, e: Event, key: Key)
    requires !Addressed(c, e, key) && (key in st ==> e.at - st[key].created <= ttl)
    ensures var moved := Step(c, ttl, st, e);
            && (key in moved.state <==> key in st) && (key in st ==> moved.state[key] == st[key])
            && !(moved.output.Assembled? && moved.output.key == key)
  {
    hide Classify, FeedParsed;
    if e.Deliver? && Classify(c, e.data).Piece? {
      var arrival := Classify(c, e.data);
      FeedElsewhere(st, arrival.key, arrival.parsed, e.at, key);
    }
  }

  lemma FeedElsewhere(st: State, key: Key, parsed: Result<Chunk, Error>, now: real, other: Key)
    requires key != other
    ensures var fed := FeedParsed(st, key, parsed, now);
            (other in fed.state <==> other in st) && (other in st ==> fed.state[other] == st[other])
  {
    hide Join, Parts, Indices, Grown;
  }

  lemma {:induction false} HoldsUntilComplete(c: Compression, ttl: real, t: Transfer, st: State, start: real,
                                              base: map<nat, Bytes>, evs: seq<Event>)
    requires Lossless(c) && t.Valid(c) && |t.frames| == t.Total()
    requires base.Keys <= Indices(t.Total()) && Holds(t, st, start, base, {}) && Schedule(c, ttl, t, start, evs)
    requires base.Keys + Seen(t, evs) != Indices(t.Total())
    ensures Holds(t, StateAfter(c, ttl, st, evs), start, base, Seen(t, evs))
  {
    hide Holds, Patched, Step;
    if evs != [] {
      var front, e := evs[..|evs| - 1], evs[|evs| - 1];
      assert evs == front + [e];
      SeenStep(c, t, front, e);
      assert Seen(t, front) <= Indices(t.Total()) && Seen(t, front) <= Seen(t, evs) <= Indices(t.Total());
      HoldsUntilComplete(c, ttl, t, st, start, base, front);
      StepHolds(c, ttl, t, StateAfter(c, ttl, st, front), start, base, front, e);
    } else {
      assert Seen(t, evs) == {};
    }
  }

  /** One event of a schedule, from a state that holds what was seen so far. */
  lemma StepHolds(c: Compression, ttl: real, t: Transfer, st: State, start: real, base: map<nat, Bytes>,
                  evs: seq<Event>, e: Event)
    requires Lossless(c) && t.Valid(c) && |t.frames| == t.Total()
    requires base.Keys <= Indices(t.Total()) && Schedule(c, ttl, t, start, evs + [e])
    requires base.Keys + Seen(t, evs) != Indices(t.Total())
    requires Holds(t, st, start, base, Seen(t, evs))
    ensures var moved := Step(c, ttl, st, e);
            if base.Keys + Seen(t, evs + [e]) == Indices(t.Total())
            then moved.output == Assembled(t.Address(), Mixture(t, base, Seen(t, evs + [e]))) && t.Address() !in moved.state
            else && Holds(t, moved.state, start, base, Seen(t, evs + [e]))
                 && (moved.output.Assembled? ==> moved.output.key != t.Address())
                 && (Addressed(c, e, t.Address()) ==> moved.output == Quiet)
  {
    hide Step, Holds, Mixture, Patched;
    assert (evs + [e])[|evs|] == e;
    SeenStep(c, t, evs, e);
    assert base.Keys + Seen(t, evs) < Indices(t.Total());
    if Addressed(c, e, t.Address()) {
      var i :| 0 <= i < |t.frames| && t.frames[i] == e.data && Seen(t, evs + [e]) == Seen(t, evs) + {i};
      FrameCarriesSlice(c, t, i, e.at);
      OwnChunk(c, ttl, t, st, start, base, Seen(t, evs), i, e);
    } else {
      if e.Deliver? && e.data in t.frames {
        var i :| 0 <= i < |t.frames| && t.frames[i] == e.data;
        FrameCarriesSlice(c, t, i, e.at);
        assert false;
      }
      OtherEvent(c, ttl, t, st, start, base, Seen(t, evs), e);
    }
  }

  /**
   Delivery onto a leftover buffer. From a buffer for the key with the same total that already holds the chunks `base`
   (none of it: no buffer), deliver the transfer's frames in any order, any number of times, interleaved with
   arbitrary traffic of other keys and with sweeps. Up to the event that completes the set of indices every event
   under this key is quiet; that event returns the slices delivered and, for the indices not delivered, what was
   left over.
   */
  lemma MixedReassembly(c: Compression, ttl: real, t: Transfer, st: State, start: real, base: map<nat, Bytes>,
                        evs: seq<Event>, k: nat)
    requires Lossless(c) && t.Valid(c)
    requires base.Keys <= Indices(t.Total()) && Holds(t, st, start, base, {}) && Schedule(c, ttl, t, start, evs)
    requires k < |evs| && base.Keys + Seen(t, evs[..k]) != Indices(t.Total())
    ensures |t.frames| == t.Total()
    ensures base.Keys + Seen(t, evs[..k + 1]) != Indices(t.Total()) ==>
              && (Addressed(c, evs[k], t.Address()) ==> OutputAt(c, ttl, st, evs, k) == Quiet)
              && !(OutputAt(c, ttl, st, evs, k).Assembled? && OutputAt(c, ttl, st, evs, k).key == t.Address())
    ensures base.Keys + Seen(t, evs[..k + 1]) == Indices(t.Total()) ==>
              && OutputAt(c, ttl, st, evs, k) == Assembled(t.Address(), Mixture(t, base, Seen(t, evs[..k + 1])))
              && t.Address() !in StateAfter(c, ttl, st, evs[..k + 1])
  {
    hide Step, Classify, Seen, Holds, Mixture;
    FrameCarriesSlice(c, t, 0, start);
    assert evs[..k] + [evs[k]] == evs[..k + 1];
    assert evs[..k + 1][..k] == evs[..k];
    HoldsUntilComplete(c, ttl, t, st, start, base, evs[..k]);
    StepHolds(c, ttl, t, StateAfter(c, ttl, st, evs[..k]), start, base, evs[..k], evs[k]);
  }

  /** The chunks in the transfer's buffer, if it has one. */
  function Leftover(t: Transfer, st: State): map<nat, Bytes> {
    if t.Address() in st then st[t.Address()].chunks else map[]
  }

  /** No buffer for the key, or an unfinished one of the same total whose chunks are all slices of this payload. */
  ghost predicate Tolerated(t: Transfer, st: State, start: real) {
    var base := Leftover(t, st);
    && Holds(t, st, start, base, {}) && base.Keys < Indices(t.Total())
    && base == SlicesOf(t, base.Keys)
  }

  /**
   Reassembly. Start with no buffer for the key, or one that holds slices of the same payload only, and deliver the
   frames as above: quiet until the last missing index arrives, and then exactly the original payload, and the buffer
   is gone.
   */
  lemma Reassembly(c: Compression, ttl: real, t: Transfer, st: State, start: real, evs: seq<Event>, k: nat)
    requires Lossless(c) && t.Valid(c)
    requires Tolerated(t, st, start) && Schedule(c, ttl, t, start, evs)
    requires k < |evs| && Leftover(t, st).Keys + Seen(t, evs[..k]) != Indices(t.Total())
    ensures |t.frames| == t.Total()
    ensures Leftover(t, st).Keys + Seen(t, evs[..k + 1]) != Indices(t.Total()) ==>
              && (Addressed(c, evs[k], t.Address()) ==> OutputAt(c, ttl, st, evs, k) == Quiet)
              && !(OutputAt(c, ttl, st, evs, k).Assembled? && OutputAt(c, ttl, st, evs, k).key == t.Address())
    ensures Leftover(t, st).Keys + Seen(t, evs[..k + 1]) == Indices(t.Total()) ==>
              && OutputAt(c, ttl, st, evs, k) == Assembled(t.Address(), t.payload)
              && t.Address() !in StateAfter(c, ttl, st, evs[..k + 1])
  {
    hide OutputAt, StateAfter, Seen, Holds, Schedule, Addressed, Mixture;
    var base := Leftover(t, st);
    MixedReassembly(c, ttl, t, st, start, base, evs, k);
    if base.Keys + Seen(t, evs[..k + 1]) == Indices(t.Total()) {
      SlicesMix(t, base, Seen(t, evs[..k + 1]));
    }
  }

  /** An absent buffer is tolerated. */
  lemma AbsentTolerated(t: Transfer, st: State, start: real)
    requires t.Address() !in st
    ensures Tolerated(t, st, start) && Leftover(t, st) == map[]
  {
    hide ChunkSlice;
    assert 0 in Indices(t.Total());
    var none: map<nat, Bytes> := map[];
    assert none.Keys + {} == {};
  }

  // ---- Which leftover buffers are harmless --------------------------------------------------------

  /** Event `k` of the schedule brings the last missing index. */
  ghost predicate Completes(c: Compression, ttl: real, t: Transfer, start: real, base: map<nat, Bytes>, evs: seq<Event>, k: nat) {
    && Schedule(c, ttl, t, start, evs) && k < |evs|
    && base.Keys + Seen(t, evs[..k]) != Indices(t.Total())
    && base.Keys + Seen(t, evs[..k + 1]) == Indices(t.Total())
  }

  /** Every schedule that completes returns the payload when it does. */
  ghost predicate AlwaysWhole(c: Compression, ttl: real, t: Transfer, st: State, start: real, base: map<nat, Bytes>) {
    forall evs: seq<Event>, k: nat :: Completes(c, ttl, t, start, base, evs, k) ==>
      OutputAt(c, ttl, st, evs, k) == Assembled(t.Address(), t.payload)
  }

  lemma {:induction false} JoinConcat(a: seq<Bytes>, b: seq<Bytes>)
    ensures Join(a + b) == Join(a) + Join(b)
    decreases |a|
  {
    if a == [] {
      assert a + b == b;
    } else {
      assert (a + b)[1..] == a[1..] + b;
      JoinConcat(a[1..], b);
    }
  }

  /** Changing one part changes the join. */
  lemma OnePartMatters(a: seq<Bytes>, i: nat, part: Bytes)
    requires i < |a| && Join(a[i := part]) == Join(a)
    ensures part == a[i]
  {
    var front, back := a[..i], a[i + 1..];
    assert a == front + ([a[i]] + back);
    assert a[i := part] == front + ([part] + back);
    JoinConcat(front, [a[i]] + back);
    JoinConcat(front, [part] + back);
    assert ([a[i]] + back)[1..] == back && ([part] + back)[1..] == back;
    assert Join([a[i]] + back) == a[i] + Join(back) && Join([part] + back) == part + Join(back);
    var before := |Join(front)|;
    assert (Join(front) + (a[i] + Join(back)))[before..] == a[i] + Join(back);
    assert (Join(front) + (part + Join(back)))[before..] == part + Join(back);
    assert |part| == |a[i]|;
    assert (a[i] + Join(back))[..|a[i]|] == a[i] && (part + Join(back))[..|part|] == part;
  }

  /** The transfer's frames below `n`, in order, but for two of them. */
  ghost function AllBut(t: Transfer, n: nat, i: nat, m: nat, at: real): seq<Event>
    requires n <= |t.frames|
  {
    if n == 0 then []
    else AllBut(t, n - 1, i, m, at) + (if n - 1 == i || n - 1 == m then [] else [Deliver(t.frames[n - 1], at)])
  }

  lemma IndicesBut(n: nat, i: nat, m: nat)
    requires n > 0
    ensures Indices(n) - {i, m} == Indices(n - 1) - {i, m} + (if n - 1 == i || n - 1 == m then {} else {n - 1})
  {
  }

  lemma NothingSeen(t: Transfer)
    ensures Seen(t, []) == {} && Indices(0) == {}
  {
  }

  lemma {:induction false} AllButSeen(c: Compression, t: Transfer, n: nat, i: nat, m: nat, at: real)
    requires Lossless(c) && t.Valid(c) && n <= |t.frames| == t.Total()
    ensures Seen(t, AllBut(t, n, i, m, at)) == Indices(n) - {i, m}
  {
    hide Seen, Lossless, Transfer.Valid, Transfer.Total, Indices;
    if n == 0 {
      NothingSeen(t);
    } else {
      IndicesBut(n, i, m);
      AllButSeen(c, t, n - 1, i, m, at);
      if n - 1 != i && n - 1 != m {
        SeenOne(c, t, AllBut(t, n - 1, i, m, at), n - 1, at);
      } else {
        assert AllBut(t, n, i, m, at) == AllBut(t, n - 1, i, m, at);
      }
    }
  }

  lemma {:induction false} AllButDelivers(t: Transfer, n: nat, i: nat, m: nat, at: real)
    requires n <= |t.frames|
    ensures forall e :: e in AllBut(t, n, i, m, at) ==> e.Deliver? && e.at == at && e.data in t.frames
  {
    if n > 0 {
      AllButDelivers(t, n - 1, i, m, at);
    }
  }

  /** Delivering frame `i` adds exactly index `i`. */
  lemma SeenOne(c: Compression, t: Transfer, evs: seq<Event>, i: nat, at: real)
    requires Lossless(c) && t.Valid(c) && i < |t.frames| == t.Total()
    ensures Seen(t, evs + [Deliver(t.frames[i], at)]) == Seen(t, evs) + {i}
  {
    hide Seen;
    var e := Deliver(t.frames[i], at);
    SeenStep(c, t, evs, e);
    var j :| 0 <= j < |t.frames| && t.frames[j] == e.data && Seen(t, evs + [e]) == Seen(t, evs) + {j};
    FramesDistinct(c, t, i, j);
  }

  /** The schedule that delivers every index but `i`, a missing one last. */
  ghost function SpoilingSchedule(t: Transfer, i: nat, m: nat, at: real): (evs: seq<Event>)
    requires m < |t.frames| == t.Total()
    ensures |evs| > 0
  {
    AllBut(t, t.Total(), i, m, at) + [Deliver(t.frames[m], at)]
  }

  lemma SpoilingCompletes(c: Compression, ttl: real, t: Transfer, start: real, base: map<nat, Bytes>, i: nat, m: nat)
    requires Lossless(c) && t.Valid(c) && ttl >= 0.0 && |t.frames| == t.Total()
    requires base.Keys <= Indices(t.Total()) && i in base && m < t.Total() && m !in base
    ensures var evs := SpoilingSchedule(t, i, m, start);
            && Completes(c, ttl, t, start, base, evs, |evs| - 1)
            && Seen(t, evs) == Indices(t.Total()) - {i}
  {
    hide Seen, ChunkCount, AllBut, Addressed, Lossless, Transfer.Valid;
    var n := t.Total();
    var front, last := AllBut(t, n, i, m, start), Deliver(t.frames[m], start);
    AllButSeen(c, t, n, i, m, start);
    AllButDelivers(t, n, i, m, start);
    SeenOne(c, t, front, m, start);
    var evs := front + [last];
    assert evs[..|evs| - 1] == front && evs[..|evs| - 1 + 1] == evs;
    assert forall k :: 0 <= k < |evs| ==> evs[k] in front || evs[k] == last;
    assert m !in base.Keys + Seen(t, front) && m in Indices(n);
  }

  lemma CompletesIs(c: Compression, ttl: real, t: Transfer, start: real, base: map<nat, Bytes>, evs: seq<Event>, k: nat)
    requires Completes(c, ttl, t, start, base, evs, k)
    ensures Schedule(c, ttl, t, start, evs) && k < |evs|
    ensures base.Keys + Seen(t, evs[..k]) != Indices(t.Total())
    ensures base.Keys + Seen(t, evs[..k + 1]) == Indices(t.Total())
  {
    hide Schedule, Seen;
  }

  lemma FrameCount(c: Compression, t: Transfer)
    requires Lossless(c) && t.Valid(c)
    ensures |t.frames| == t.Total() && t.Total() > 0
  {
    FrameCarriesSlice(c, t, 0, 0.0);
  }

  lemma NotWhole(c: Compression, ttl: real, t: Transfer, st: State, start: real, base: map<nat, Bytes>, evs: seq<Event>, k: nat)
    requires Completes(c, ttl, t, start, base, evs, k) && OutputAt(c, ttl, st, evs, k) != Assembled(t.Address(), t.payload)
    ensures !AlwaysWhole(c, ttl, t, st, start, base)
  {
    hide Completes, OutputAt;
  }

  /** A wrong chunk left over spoils the payload of some schedule. */
  lemma WrongChunkSpoils(c: Compression, ttl: real, t: Transfer, st: State, start: real, base: map<nat, Bytes>, i: nat, m: nat)
    requires Lossless(c) && t.Valid(c) && ttl >= 0.0
    requires base.Keys <= Indices(t.Total()) && Holds(t, st, start, base, {})
    requires i in base && base[i] != ChunkSlice(t.payload, t.chunkSize, i)
    requires m < t.Total() && m !in base
    ensures !AlwaysWhole(c, ttl, t, st, start, base)
  {
    hide *;
    FrameCount(c, t);
    SpoilingCompletes(c, ttl, t, start, base, i, m);
    var evs := SpoilingSchedule(t, i, m, start);
    var k := |evs| - 1;
    CompletesIs(c, ttl, t, start, base, evs, k);
    MixedReassembly(c, ttl, t, st, start, base, evs, k);
    assert evs[..k + 1] == evs;
    SpoiltMixture(t, base, Seen(t, evs), i);
    NotWhole(c, ttl, t, st, start, base, evs, k);
  }

  lemma SpoiltMixture(t: Transfer, base: map<nat, Bytes>, seen: set<nat>, i: nat)
    requires base.Keys + seen == Indices(t.Total()) && seen == Indices(t.Total()) - {i}
    requires i in base && base[i] != ChunkSlice(t.payload, t.chunkSize, i)
    ensures Mixture(t, base, seen) != t.payload
  {
    hide Join, ChunkSlice, ChunkCount;
    var slices := Slices(t.payload, t.chunkSize, t.Total());
    assert Parts(Patched(t, base, seen), t.Total()) == slices[i := base[i]];
    JoinSlices(t.payload, t.chunkSize);
    if Join(slices[i := base[i]]) == Join(slices) {
      OnePartMatters(slices, i, base[i]);
    }
  }

  /** An unfinished buffer of the same total is harmless to every schedule exactly when its chunks are slices of the payload. */
  lemma ToleratedExactly(c: Compression, ttl: real, t: Transfer, st: State, start: real)
    requires Lossless(c) && t.Valid(c) && ttl >= 0.0
    requires Leftover(t, st).Keys < Indices(t.Total()) && Holds(t, st, start, Leftover(t, st), {})
    ensures AlwaysWhole(c, ttl, t, st, start, Leftover(t, st)) <==> Tolerated(t, st, start)
  {
    hide *;
    var base := Leftover(t, st);
    ToleratedMeans(t, st, start);
    if Tolerated(t, st, start) {
      ToleratedIsWhole(c, ttl, t, st, start);
    } else {
      var i :| i in base && base[i] != ChunkSlice(t.payload, t.chunkSize, i);
      MissingIndex(base.Keys, t.Total());
      var m: nat :| m < t.Total() && m !in base.Keys;
      WrongChunkSpoils(c, ttl, t, st, start, base, i, m);
    }
  }

  lemma MissingIndex(keys: set<nat>, n: nat)
    requires keys < Indices(n)
    ensures exists m: nat :: m < n && m !in keys
  {
    assert !(Indices(n) <= keys);
    var m :| m in Indices(n) && m !in keys;
    assert m < n;
  }

  lemma ToleratedMeans(t: Transfer, st: State, start: real)
    requires Leftover(t, st).Keys < Indices(t.Total()) && Holds(t, st, start, Leftover(t, st), {})
    ensures Tolerated(t, st, start)
            <==> forall i :: i in Leftover(t, st) ==> Leftover(t, st)[i] == ChunkSlice(t.payload, t.chunkSize, i)
  {
    hide Holds, ChunkSlice, ChunkCount;
    var base := Leftover(t, st);
    assert SlicesOf(t, base.Keys).Keys == base.Keys;
  }

  lemma ToleratedIsWhole(c: Compression, ttl: real, t: Transfer, st: State, start: real)
    requires Lossless(c) && t.Valid(c) && Tolerated(t, st, start)
    ensures AlwaysWhole(c, ttl, t, st, start, Leftover(t, st))
  {
    hide OutputAt, StateAfter, Seen, Tolerated, Leftover, Schedule, ChunkCount;
    forall evs: seq<Event>, k: nat | Completes(c, ttl, t, start, Leftover(t, st), evs, k)
      ensures OutputAt(c, ttl, st, evs, k) == Assembled(t.Address(), t.payload)
    {
      Reassembly(c, ttl, t, st, start, evs, k);
    }
  }

  // ---- A duplicate after completion ------------------------------------------------------------------

  lemma OneIndex(i: nat, n: nat)
    requires i < n
    ensures {i} == Indices(n) <==> n == 1
    ensures {i} <= Indices(n)
  {
    assert |{i}| == 1;
    if n == 1 {
      assert forall j: nat :: j in Indices(1) <==> j == 0;
    }
  }

  /**
   A frame that arrives again after completion opens a new buffer exactly when the transfer has more than one chunk;
   the payload of a one-chunk transfer is returned again.
   */
  lemma LateDuplicate(c: Compression, ttl: real, t: Transfer, st: State, i: nat, at: real)
    requires Lossless(c) && t.Valid(c) && i < t.Total()
    requires t.Address() !in st
    ensures |t.frames| == t.Total()
    ensures var moved := Step(c, ttl, st, Deliver(t.frames[i], at));
            if t.Total() > 1
            then && moved.output == Quiet && t.Address() in moved.state
                 && moved.state[t.Address()].total == t.Total() && at <= moved.state[t.Address()].created
                 && Leftover(t, moved.state) == SlicesOf(t, {i})
            else moved.output == Assembled(t.Address(), t.payload) && t.Address() !in moved.state
  {
    hide Step, ChunkFor, Mixture, Lossless, Transfer.Valid, Indices, ChunkSlice, ChunkCount;
    FrameCarriesSlice(c, t, i, at);
    var none: map<nat, Bytes> := map[];
    assert none.Keys + {} == {};
    OwnChunk(c, ttl, t, st, at, none, {}, i, Deliver(t.frames[i], at));
    assert {} + {i} == {i} && none.Keys + {i} == {i};
    OneIndex(i, t.Total());
    if t.Total() == 1 {
      SlicesMix(t, none, {i});
    } else {
      assert Patched(t, none, {i}) == SlicesOf(t, {i});
    }
  }

  /** An uncompressed `read` of two bytes in two chunks. */
  ghost function TwoBytes(c: Compression, payload: Bytes): (t: Transfer)
    requires Lossless(c) && |payload| == 2
    ensures t.Valid(c) && t.payload == payload && t.chunkSize == 1 && t.Address() == Key(0, "read") && t.Total() == 2
    ensures |t.frames| == 2
  {
    ChunkedFramesSucceed(c, 0, 0, "read", payload, None, 1);
    var t := Transfer(0, 0, "read", payload, None, 1, ChunkedFrames(c, 0, 0, "read", payload, None, 1).value);
    FrameCount(c, t);
    t
  }

  /** A concrete wrong payload: chunk 0 of `[1, 2]` arrives again after completion, and the next transfer under the same
      id, `[3, 4]`, is returned as `[1, 4]` when its chunk 1 comes first. */
  lemma WrongPayload(c: Compression, ttl: real)
    requires Lossless(c) && ttl >= 0.0
    ensures var first, second := TwoBytes(c, [1, 2]), TwoBytes(c, [3, 4]);
            var evs := [Deliver(first.frames[0], 0.0), Deliver(first.frames[1], 0.0),
                        Deliver(first.frames[0], 0.0), Deliver(second.frames[1], 0.0)];
            OutputAt(c, ttl, map[], evs, 1) == Assembled(Key(0, "read"), [1, 2])
            && OutputAt(c, ttl, map[], evs, 3) == Assembled(Key(0, "read"), [1, 4])
  {
    hide *;
    var first, second := TwoBytes(c, [1, 2]), TwoBytes(c, [3, 4]);
    var evs := [Deliver(first.frames[0], 0.0), Deliver(first.frames[1], 0.0),
                Deliver(first.frames[0], 0.0), Deliver(second.frames[1], 0.0)];
    StatesOfFour(c, ttl, evs);
    TwoInTurn(c, ttl, map[], first, first);
    var st := Step(c, ttl, Step(c, ttl, map[], evs[0]).state, evs[1]).state;
    TwoInTurn(c, ttl, st, first, second);
  }

  lemma StatesOfFour(c: Compression, ttl: real, evs: seq<Event>)
    requires |evs| == 4
    ensures var s1 := Step(c, ttl, map[], evs[0]).state;
            var s2 := Step(c, ttl, s1, evs[1]).state;
            var s3 := Step(c, ttl, s2, evs[2]).state;
            OutputAt(c, ttl, map[], evs, 1) == Step(c, ttl, s1, evs[1]).output
            && OutputAt(c, ttl, map[], evs, 3) == Step(c, ttl, s3, evs[3]).output
  {
    hide Step;
    assert evs[..0] == [];
    assert evs[..1][..0] == [] && evs[..2][..1] == evs[..1] && evs[..3][..2] == evs[..2];
    assert StateAfter(c, ttl, map[], evs[..1]) == Step(c, ttl, StateAfter(c, ttl, map[], []), evs[0]).state;
    assert StateAfter(c, ttl, map[], evs[..2]) == Step(c, ttl, StateAfter(c, ttl, map[], evs[..1]), evs[1]).state;
    assert StateAfter(c, ttl, map[], evs[..3]) == Step(c, ttl, StateAfter(c, ttl, map[], evs[..2]), evs[2]).state;
  }

  /** Without a buffer for the key: chunk 0 of one transfer, then chunk 1 of another. */
  lemma TwoInTurn(c: Compression, ttl: real, st: State, a: Transfer, b: Transfer)
    requires Lossless(c) && a.Valid(c) && b.Valid(c) && |a.payload| == |b.payload| == 2 && a.chunkSize == b.chunkSize == 1
    requires a.Address() == b.Address() && a.Address() !in st && |a.frames| == |b.frames| == 2
    ensures var half := Step(c, ttl, st, Deliver(a.frames[0], 0.0)).state;
            var full := Step(c, ttl, half, Deliver(b.frames[1], 0.0));
            full.output == Assembled(a.Address(), [a.payload[0], b.payload[1]]) && a.Address() !in full.state
  {
    hide Step, ChunkFor, Mixture, Lossless, Transfer.Valid, ChunkSlice;
    LateDuplicate(c, ttl, a, st, 0, 0.0);
    var half := Step(c, ttl, st, Deliver(a.frames[0], 0.0)).state;
    var base := SlicesOf(a, {0});
    FrameCarriesSlice(c, b, 1, 0.0);
    assert Patched(b, base, {}) == base;
    TwoIndices();
    OwnChunk(c, ttl, b, half, 0.0, base, {}, 1, Deliver(b.frames[1], 0.0));
    TwoMixture(a, b);
  }

  lemma TwoIndices()
    ensures Indices(2) == {0, 1}
  {
  }

  lemma TwoMixture(a: Transfer, b: Transfer)
    requires |a.payload| == |b.payload| == 2 && a.chunkSize == b.chunkSize == 1
    ensures SlicesOf(a, {0}).Keys + {1} == Indices(b.Total())
    ensures Mixture(b, SlicesOf(a, {0}), {} + {1}) == [a.payload[0], b.payload[1]]
  {
    TwoIndices();
    assert SlicesOf(a, {0})[0] == [a.payload[0]] && ChunkSlice(b.payload, 1, 1) == [b.payload[1]];
    var parts: seq<Bytes> := Parts(Patched(b, SlicesOf(a, {0}), {1}), 2);
    assert parts == [[a.payload[0]], [b.payload[1]]];
    assert {} + {1} == {1} && b.Total() == 2;
    assert parts[1..] == [[b.payload[1]]] && |parts[1..][1..]| == 0;
    assert Join(parts[1..]) == [b.payload[1]] + Join([]);
    assert Join(parts) == [a.payload[0]] + Join(parts[1..]);
  }
}

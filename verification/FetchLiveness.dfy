/** The chunked drain composed with the arena: when the guest's buffer is partly used, the body still arrives. */
module FetchLiveness {
  import opened Machine
  import opened ArenaModel
  import opened Backends
  import opened FetchChunks

  /** The JSON encoding of chunk replies, known only by what it does to sizes and by being invertible. */
  datatype Wire = Wire(encode: ReadReply -> seq<byte>, decode: seq<byte> -> ReadReply)

  function Base64Length(n: nat): nat {
    4 * ((n + 2) / 3)
  }

  /** A chunk costs its base64 text plus at most `overhead` bytes of envelope, and decodes to itself. */
  ghost predicate IsBase64Wire(w: Wire, overhead: nat) {
    && (forall data: seq<byte>, done: bool ::
          0 < |w.encode(Chunk(data, done))| <= Base64Length(|data|) + overhead
          && w.decode(w.encode(Chunk(data, done))) == Chunk(data, done))
    && w.decode(w.encode(ResponseTooLarge)) == ResponseTooLarge
  }

  /** Such an encoding, if a lean one: a tag byte before the raw bytes. */
  function TaggedWire(): Wire {
    Wire(
      (r: ReadReply) => if r.Chunk? then [if r.done then 1 else 0] + r.data else [2],
      (bytes: seq<byte>) =>
        if bytes == [] || bytes[0] > 2 then HostNoData
        else if bytes[0] == 2 then ResponseTooLarge
        else Chunk(bytes[1..], bytes[0] == 1))
  }

  lemma TaggedWireIsOne()
    ensures IsBase64Wire(TaggedWire(), 1)
  {
    var w := TaggedWire();
    forall data: seq<byte>, done: bool
      ensures 0 < |w.encode(Chunk(data, done))| <= Base64Length(|data|) + 1
      ensures w.decode(w.encode(Chunk(data, done))) == Chunk(data, done)
    {
      var bytes := w.encode(Chunk(data, done));
      assert bytes[1..] == data;
    }
  }

  /**
   A host holding a parked body. When a chunk does not fit the guest's buffer it either explains that in
   an error envelope (if at least that fits) or reports no data, as it likes for each history of reads.
   */
  datatype Server = Server(body: seq<byte>, explains: seq<Request> -> bool)

  function ChunkFor(server: Server, req: Request): ReadReply
    requires req.offset <= |server.body|
  {
    var end := if req.offset + req.limit < |server.body| then req.offset + req.limit else |server.body|;
    Chunk(server.body[req.offset..end], end == |server.body|)
  }

  /** The host's reply to one paca.fetch call, given how much of the arena is in use. */
  function ReplyTo(w: Wire, server: Server, offset: int, made: seq<Request>): Reply
    requires made != []
  {
    var req := made[|made| - 1];
    var apology := w.encode(ResponseTooLarge);
    if req.offset > |server.body| then Reply([], -1, -1, 0)
    else
      var envelope := w.encode(ChunkFor(server, req));
      if |envelope| <= CAPACITY && Fits(offset, envelope) then Reply([envelope], 0, -1, 0)
      else if server.explains(made) && |apology| <= CAPACITY then Reply([apology], 0, -1, 0)
      else Reply([], -1, -1, 0)
  }

  /** readFetchChunk over callFetchHost: the decoded reply and the arena offset afterwards. */
  function ServeSpec(w: Wire, server: Server, offset: int, made: seq<Request>): (ReadReply, int)
    requires made != []
  {
    var (o, after) := CallSpec(offset, Exchange("fetch", []), ReplyTo(w, server, offset, made));
    (if o.Body? then w.decode(o.encoded) else HostNoData, after)
  }

  method ReadFetchChunk(arena: Arena, w: Wire, server: Server, made: seq<Request>) returns (r: ReadReply)
    requires arena.Valid() && made != []
    modifies arena, arena.memory
    ensures arena.Valid()
    ensures (r, arena.offset) == ServeSpec(w, server, old(arena.offset), made)
  {
    var o := CallHost(arena, "fetch", [], ReplyTo(w, server, arena.offset, made));
    r := if o.Body? then w.decode(o.encoded) else HostNoData;
  }

  function OffsetAt(w: Wire, server: Server, start: int, made: seq<Request>): int {
    if made == [] then start else ServeSpec(w, server, OffsetAt(w, server, start, made[..|made| - 1]), made).1
  }

  /** The reader that readBodyChunks gets when the arena is `start` bytes full: its memory is the arena. */
  function ArenaReader(w: Wire, server: Server, start: int): Reader {
    (made: seq<Request>) =>
      if made == [] then HostNoData else ServeSpec(w, server, OffsetAt(w, server, start, made[..|made| - 1]), made).0
  }

  /** One more read against the arena gets exactly what that reader answers. */
  method ReadNext(arena: Arena, w: Wire, server: Server, ghost start: int, made: seq<Request>, req: Request) returns (r: ReadReply)
    requires arena.Valid() && arena.offset == OffsetAt(w, server, start, made)
    modifies arena, arena.memory
    ensures arena.Valid() && arena.offset == OffsetAt(w, server, start, made + [req])
    ensures r == ArenaReader(w, server, start)(made + [req])
  {
    var now := made + [req];
    assert now[..|now| - 1] == made;
    r := ReadFetchChunk(arena, w, server, now);
  }

  lemma Base64Grows(m: nat, n: nat)
    requires m <= n
    ensures Base64Length(m) <= Base64Length(n)
  {
  }

  /** One read: the chunk itself whenever it fits, otherwise a reply that makes the guest try a smaller one. */
  lemma ServeOne(w: Wire, server: Server, overhead: nat, offset: int, made: seq<Request>)
    requires IsBase64Wire(w, overhead) && made != [] && 0 <= offset
    requires made[|made| - 1].offset <= |server.body|
    ensures var req := made[|made| - 1];
      var (r, after) := ServeSpec(w, server, offset, made);
      && (offset + Base64Length(req.limit) + overhead <= CAPACITY ==> r == ChunkFor(server, req))
      && (r == ChunkFor(server, req) || Retryable(r))
      && 0 <= after <= offset
      && (r.Chunk? ==> after == 0)
  {
    var req := made[|made| - 1];
    var chunk := ChunkFor(server, req);
    Base64Grows(|chunk.data|, req.limit);
    var reply := ReplyTo(w, server, offset, made);
    if reply.blocks != [] {
      assert reply.blocks[..0] == [];
      assert reply.blocks == [reply.blocks[0]];
    }
  }

  /** The same, seen by the reader: what it answers to one more read, and what that leaves in use. */
  lemma ReadOne(w: Wire, server: Server, overhead: nat, start: int, made: seq<Request>, req: Request)
    requires IsBase64Wire(w, overhead) && req.offset <= |server.body|
    requires 0 <= OffsetAt(w, server, start, made)
    ensures var now := made + [req];
      var r := ArenaReader(w, server, start)(now);
      && (OffsetAt(w, server, start, made) + Base64Length(req.limit) + overhead <= CAPACITY ==> r == ChunkFor(server, req))
      && (r == ChunkFor(server, req) || Retryable(r))
      && 0 <= OffsetAt(w, server, start, now) <= OffsetAt(w, server, start, made)
      && (r.Chunk? ==> OffsetAt(w, server, start, now) == 0)
  {
    var now := made + [req];
    assert now[..|now| - 1] == made;
    ServeOne(w, server, overhead, OffsetAt(w, server, start, made), now);
  }

  lemma ChunkExtends(server: Server, body: seq<byte>, limit: nat)
    requires body <= server.body && limit > 0
    ensures var c := ChunkFor(server, Request(|body|, limit));
      && body + c.data <= server.body
      && (c.done <==> body + c.data == server.body)
      && (!c.done ==> c.data != [])
  {
  }

  /** A limit the loop can be at: 256 KiB halved up to six times. */
  predicate IsLimit(limit: nat) {
    limit in {4096, 8192, 16384, 32768, 65536, 131072, 262144}
  }

  lemma ChunkTurn(server: Server, body: seq<byte>, limit: nat)
    requires body <= server.body && limit > 0
    ensures match TurnOn(ChunkFor(server, Request(|body|, limit)), |server.body|, body, limit)
      case Stop(result) => result == Ok(server.body)
      case Again(more, next) => more <= server.body && next == limit
  {
    ChunkExtends(server, body, limit);
  }

  /** What a turn of the loop makes of the host's chunk, or of a reply that asks for a smaller one. */
  lemma TurnDelivers(server: Server, reply: ReadReply, body: seq<byte>, limit: nat)
    requires body <= server.body && IsLimit(limit)
    requires reply == ChunkFor(server, Request(|body|, limit)) || (Retryable(reply) && limit > MIN_FETCH_CHUNK_SIZE)
    ensures match TurnOn(reply, |server.body|, body, limit)
      case Stop(result) => result == Ok(server.body)
      case Again(more, next) => more <= server.body && IsLimit(next)
  {
    if Retryable(reply) {
      assert TurnOn(reply, |server.body|, body, limit) == Again(body, limit / 2);
    } else {
      ChunkTurn(server, body, limit);
    }
  }

  /** One turn of the loop: a smaller limit, the end of the body, or a longer prefix of it. */
  lemma DrainTurn(w: Wire, server: Server, overhead: nat, start: nat, made: seq<Request>, body: seq<byte>, limit: nat)
    requires IsBase64Wire(w, overhead) && start + Base64Length(MIN_FETCH_CHUNK_SIZE) + overhead <= CAPACITY
    requires body <= server.body && IsLimit(limit)
    requires 0 <= OffsetAt(w, server, start, made) <= start
    ensures var now := made + [Request(|body|, limit)];
      && 0 <= OffsetAt(w, server, start, now) <= start
      && match TurnOn(ArenaReader(w, server, start)(now), |server.body|, body, limit)
         case Stop(result) => result == Ok(server.body)
         case Again(more, next) => more <= server.body && IsLimit(next)
  {
    var req := Request(|body|, limit);
    ReadOne(w, server, overhead, start, made, req);
    TurnDelivers(server, ArenaReader(w, server, start)(made + [req]), body, limit);
  }

  lemma {:induction false} DrainSucceeds(w: Wire, server: Server, overhead: nat, start: nat, made: seq<Request>, body: seq<byte>, limit: nat)
    requires IsBase64Wire(w, overhead) && start + Base64Length(MIN_FETCH_CHUNK_SIZE) + overhead <= CAPACITY
    requires body <= server.body && IsLimit(limit)
    requires 0 <= OffsetAt(w, server, start, made) <= start
    ensures Drain(ArenaReader(w, server, start), |server.body|, made, body, limit).0 == Ok(server.body)
    decreases |server.body| - |body| + limit
  {
    DrainTurn(w, server, overhead, start, made, body, limit);
    var now := made + [Request(|body|, limit)];
    match TurnOn(ArenaReader(w, server, start)(now), |server.body|, body, limit)
    case Stop(_) =>
    case Again(more, next) => DrainSucceeds(w, server, overhead, start, now, more, next);
  }

  /**
   If a 4 KiB chunk (5464 bytes of base64) with its envelope fits beside what is in use, the fetch
   returns exactly the parked body, whatever its length up to 64 MiB and however the host reports
   chunks that do not fit.
   */
  lemma FetchDelivers(w: Wire, server: Server, overhead: nat, start: nat)
    requires IsBase64Wire(w, overhead) && start + 5464 + overhead <= CAPACITY
    requires |server.body| <= MAX_FETCH_BODY_BYTES
    ensures ReadSpec(ArenaReader(w, server, start), |server.body|).0 == Ok(server.body)
  {
    DrainSucceeds(w, server, overhead, start, [], [], FETCH_CHUNK_SIZE);
  }

  /**
   The loop of readBodyChunks with readFetchChunk as its reader, over the real array and against a host
   that holds a parked body: whatever size was announced, it makes the reads and gives the answer of the
   loop over the arena's reader.
   */
  method DrainArena(arena: Arena, w: Wire, server: Server, size: int) returns (r: Result, made: seq<Request>)
    requires arena.Valid()
    modifies arena, arena.memory
    ensures arena.Valid()
    ensures (r, made) == ReadSpec(ArenaReader(w, server, old(arena.offset)), size)
  {
    made := [];
    if size < 0 || size > MAX_FETCH_BODY_BYTES {
      return AnnouncedTooLarge, made;
    }
    ghost var start := arena.offset;
    ghost var read := ArenaReader(w, server, start);
    var body: seq<byte> := [];
    var limit: nat := FETCH_CHUNK_SIZE;
    while true
      invariant arena.Valid() && arena.offset == OffsetAt(w, server, start, made)
      invariant |body| <= size && ReadSpec(read, size) == Drain(read, size, made, body, limit)
      decreases size - |body| + limit
    {
      var req := Request(|body|, limit);
      var reply := ReadNext(arena, w, server, start, made, req);
      made := made + [req];
      match TurnOn(reply, size, body, limit) {
        case Stop(result) =>
          return result, made;
        case Again(more, next) =>
          body, limit := more, next;
      }
    }
  }

  /** So a fetch whose smallest chunk fits beside what is in use gets the parked body through the arena. */
  method FetchBody(arena: Arena, w: Wire, server: Server, ghost overhead: nat) returns (r: Result)
    requires arena.Valid() && IsBase64Wire(w, overhead) && arena.offset + 5464 + overhead <= CAPACITY
    requires |server.body| <= MAX_FETCH_BODY_BYTES
    modifies arena, arena.memory
    ensures arena.Valid() && r == Ok(server.body)
  {
    FetchDelivers(w, server, overhead, arena.offset);
    var drained, _ := DrainArena(arena, w, server, |server.body|);
    return drained;
  }

  lemma {:induction false} DrainNeverShrinks(w: Wire, server: Server, overhead: nat, made: seq<Request>, body: seq<byte>)
    requires IsBase64Wire(w, overhead) && Base64Length(FETCH_CHUNK_SIZE) + overhead <= CAPACITY
    requires body <= server.body && OffsetAt(w, server, 0, made) == 0
    requires forall req :: req in made ==> req.limit == FETCH_CHUNK_SIZE
    ensures var all := Drain(ArenaReader(w, server, 0), |server.body|, made, body, FETCH_CHUNK_SIZE).1;
      forall req :: req in all ==> req.limit == FETCH_CHUNK_SIZE
    decreases |server.body| - |body|
  {
    var req := Request(|body|, FETCH_CHUNK_SIZE);
    ReadOne(w, server, overhead, 0, made, req);
    ChunkExtends(server, body, FETCH_CHUNK_SIZE);
    var r := ArenaReader(w, server, 0)(made + [req]);
    if !r.done {
      DrainNeverShrinks(w, server, overhead, made + [req], body + r.data);
    }
  }

  /** From an empty arena no chunk is ever asked for in a smaller size. */
  lemma FetchFromEmptyNeverShrinks(w: Wire, server: Server, overhead: nat)
    requires IsBase64Wire(w, overhead) && 349528 + overhead <= CAPACITY
    ensures forall req :: req in ReadSpec(ArenaReader(w, server, 0), |server.body|).1 ==> req.limit == FETCH_CHUNK_SIZE
  {
    if |server.body| <= MAX_FETCH_BODY_BYTES {
      DrainNeverShrinks(w, server, overhead, [], []);
    }
  }
}

/** The guest's side of every host call: what the backends do with the blocks the host places in the arena. */
module Backends {
  import opened Machine
  import opened ArenaModel

  /** The import a backend calls; the five constructors are the five shapes of guest code around one. */
  datatype HostCall =
    | Lookup(store: string, key: seq<byte>)
    | Query(sql: seq<byte>, params: seq<byte>)
    | Exec(sql: seq<byte>, params: seq<byte>)
    | Exchange(name: string, request: seq<byte>)
    | Notify(name: string, request: seq<byte>)

  /**
   What the host does during one call: it places the blocks in order, then reports one of them as the
   result and one as the error (an index outside the list reports nothing), and how many rows it changed.
   */
  datatype Reply = Reply(blocks: seq<Block>, result: int, failure: int, affected: int64)

  /** What the plugin gets back. */
  datatype Outcome =
    | Missing
    | Found(value: seq<byte>)
    | Rows(encoded: seq<byte>)
    | NoRows
    | Failed(message: seq<byte>)
    | Affected(count: int64)
    | Body(encoded: seq<byte>)
    | NoData
    | Acknowledged

  function OffsetAfter(offset: int, blocks: seq<Block>): int {
    if blocks == [] then offset
    else
      var before := OffsetAfter(offset, blocks[..|blocks| - 1]);
      var last := blocks[|blocks| - 1];
      if Fits(before, last) then before + |last| else before
  }

  /** The bytes behind the i-th report: nothing when there is no such block or it did not fit. */
  function Delivered(offset: int, blocks: seq<Block>, i: int): seq<byte> {
    if 0 <= i < |blocks| && Fits(OffsetAfter(offset, blocks[..i]), blocks[i]) then blocks[i] else []
  }

  function Reported(blocks: seq<Block>, i: int): seq<byte> {
    if 0 <= i < |blocks| then blocks[i] else []
  }

  /** What each kind of call makes of the two byte strings reported to it. */
  function OutcomeOf(call: HostCall, result: seq<byte>, failure: seq<byte>, affected: int64): Outcome {
    match call
    case Lookup(_, _) => if result == [] then Missing else Found(result)
    case Query(_, _) => if failure != [] then Failed(failure) else if result == [] then NoRows else Rows(result)
    case Exec(_, _) => if failure != [] then Failed(failure) else Affected(affected)
    case Exchange(_, _) => if result == [] then NoData else Body(result)
    case Notify(_, _) => Acknowledged
  }

  predicate CarriesData(o: Outcome) {
    o.Found? || o.Rows? || o.Failed? || o.Body?
  }

  /** A call that delivers data resets the arena once, after everything was read; the others do not. */
  function Resets(o: Outcome): nat {
    if CarriesData(o) then 1 else 0
  }

  /** One host call as a message exchange that only remembers how much of the arena is in use. */
  function CallSpec(offset: int, call: HostCall, reply: Reply): (Outcome, int) {
    var o := OutcomeOf(call, Delivered(offset, reply.blocks, reply.result), Delivered(offset, reply.blocks, reply.failure),
                       reply.affected);
    (o, if CarriesData(o) then 0 else OffsetAfter(offset, reply.blocks))
  }

  /** The same call against a host with unlimited memory. */
  function Ideal(call: HostCall, reply: Reply): Outcome {
    OutcomeOf(call, Reported(reply.blocks, reply.result), Reported(reply.blocks, reply.failure), reply.affected)
  }

  function TotalLength(blocks: seq<Block>): nat {
    if blocks == [] then 0 else TotalLength(blocks[..|blocks| - 1]) + |blocks[|blocks| - 1]|
  }

  lemma {:induction false} OffsetWhenAllFit(offset: int, blocks: seq<Block>)
    requires 0 <= offset && offset + TotalLength(blocks) <= CAPACITY
    ensures OffsetAfter(offset, blocks) == offset + TotalLength(blocks)
  {
    if blocks != [] {
      OffsetWhenAllFit(offset, blocks[..|blocks| - 1]);
    }
  }

  lemma {:induction false} PrefixLength(blocks: seq<Block>, i: nat)
    requires i < |blocks|
    ensures TotalLength(blocks[..i]) + |blocks[i]| <= TotalLength(blocks)
  {
    if i < |blocks| - 1 {
      assert blocks[..|blocks| - 1][..i] == blocks[..i];
      PrefixLength(blocks[..|blocks| - 1], i);
    }
  }

  lemma AllDelivered(offset: int, blocks: seq<Block>, i: int)
    requires 0 <= offset && offset + TotalLength(blocks) <= CAPACITY
    ensures Delivered(offset, blocks, i) == Reported(blocks, i)
  {
    if 0 <= i < |blocks| {
      PrefixLength(blocks, i);
      OffsetWhenAllFit(offset, blocks[..i]);
    }
  }

  /** A host that only allocates to report something the guest will read. */
  predicate Tidy(call: HostCall, reply: Reply) {
    reply.blocks == [] || CarriesData(Ideal(call, reply))
  }

  /** A tidy reply that fits beside what is in use is received whole, and leaves the arena empty. */
  lemma NothingIsLost(offset: int, call: HostCall, reply: Reply)
    requires 0 <= offset && offset + TotalLength(reply.blocks) <= CAPACITY
    requires Tidy(call, reply)
    ensures CallSpec(offset, call, reply) == (Ideal(call, reply), if reply.blocks == [] then offset else 0)
  {
    AllDelivered(offset, reply.blocks, reply.result);
    AllDelivered(offset, reply.blocks, reply.failure);
  }

  // What the plugin gets, on the blocks the host placed

  /** The reply fits the 1048576 bytes beside what is in use. */
  predicate Fitting(offset: int, reply: Reply) {
    0 <= offset && offset + TotalLength(reply.blocks) <= 1048576
  }

  /** The reply reports this block, which is not empty. */
  predicate Points(reply: Reply, i: int, block: seq<byte>) {
    0 <= i < |reply.blocks| && reply.blocks[i] == block && block != []
  }

  predicate PointsNowhere(reply: Reply, i: int) {
    i < 0 || i >= |reply.blocks| || reply.blocks[i] == []
  }

  lemma FittingIsDelivered(offset: int, reply: Reply, i: int)
    requires Fitting(offset, reply)
    ensures 0 <= i < |reply.blocks| ==> Delivered(offset, reply.blocks, i) == reply.blocks[i]
    ensures !(0 <= i < |reply.blocks|) ==> Delivered(offset, reply.blocks, i) == []
  {
    AllDelivered(offset, reply.blocks, i);
  }

  /** KV, cache and config: the value is the block the host reports, and the arena is free again. */
  lemma LookupAnswers(offset: int, store: string, key: seq<byte>, reply: Reply, value: seq<byte>)
    requires Fitting(offset, reply)
    ensures Points(reply, reply.result, value) ==> CallSpec(offset, Lookup(store, key), reply) == (Found(value), 0)
    ensures PointsNowhere(reply, reply.result) ==>
      CallSpec(offset, Lookup(store, key), reply) == (Missing, offset + TotalLength(reply.blocks))
    ensures Points(reply, reply.result, value) ==> Ideal(Lookup(store, key), reply) == Found(value)
    ensures PointsNowhere(reply, reply.result) ==> Ideal(Lookup(store, key), reply) == Missing
  {
    FittingIsDelivered(offset, reply, reply.result);
    OffsetWhenAllFit(offset, reply.blocks);
  }

  /** A failure wins over any rows; rows are exactly what the host reports. */
  lemma QueryAnswers(offset: int, sql: seq<byte>, params: seq<byte>, reply: Reply, bytes: seq<byte>)
    requires Fitting(offset, reply)
    ensures Points(reply, reply.failure, bytes) ==> CallSpec(offset, Query(sql, params), reply) == (Failed(bytes), 0)
    ensures PointsNowhere(reply, reply.failure) && Points(reply, reply.result, bytes) ==>
      CallSpec(offset, Query(sql, params), reply) == (Rows(bytes), 0)
    ensures PointsNowhere(reply, reply.failure) && PointsNowhere(reply, reply.result) ==>
      CallSpec(offset, Query(sql, params), reply) == (NoRows, offset + TotalLength(reply.blocks))
    ensures Points(reply, reply.failure, bytes) ==> Ideal(Query(sql, params), reply) == Failed(bytes)
    ensures PointsNowhere(reply, reply.failure) && Points(reply, reply.result, bytes) ==> Ideal(Query(sql, params), reply) == Rows(bytes)
    ensures PointsNowhere(reply, reply.failure) && PointsNowhere(reply, reply.result) ==> Ideal(Query(sql, params), reply) == NoRows
  {
    FittingIsDelivered(offset, reply, reply.result);
    FittingIsDelivered(offset, reply, reply.failure);
    OffsetWhenAllFit(offset, reply.blocks);
  }

  lemma ExecAnswers(offset: int, sql: seq<byte>, params: seq<byte>, reply: Reply, bytes: seq<byte>)
    requires Fitting(offset, reply)
    ensures Points(reply, reply.failure, bytes) ==> CallSpec(offset, Exec(sql, params), reply) == (Failed(bytes), 0)
    ensures PointsNowhere(reply, reply.failure) ==>
      CallSpec(offset, Exec(sql, params), reply) == (Affected(reply.affected), offset + TotalLength(reply.blocks))
    ensures Points(reply, reply.failure, bytes) ==> Ideal(Exec(sql, params), reply) == Failed(bytes)
    ensures PointsNowhere(reply, reply.failure) ==> Ideal(Exec(sql, params), reply) == Affected(reply.affected)
  {
    FittingIsDelivered(offset, reply, reply.failure);
    OffsetWhenAllFit(offset, reply.blocks);
  }

  lemma ExchangeAnswers(offset: int, name: string, request: seq<byte>, reply: Reply, bytes: seq<byte>)
    requires Fitting(offset, reply)
    ensures Points(reply, reply.result, bytes) ==> CallSpec(offset, Exchange(name, request), reply) == (Body(bytes), 0)
    ensures PointsNowhere(reply, reply.result) ==>
      CallSpec(offset, Exchange(name, request), reply) == (NoData, offset + TotalLength(reply.blocks))
    ensures Points(reply, reply.result, bytes) ==> Ideal(Exchange(name, request), reply) == Body(bytes)
    ensures PointsNowhere(reply, reply.result) ==> Ideal(Exchange(name, request), reply) == NoData
  {
    FittingIsDelivered(offset, reply, reply.result);
    OffsetWhenAllFit(offset, reply.blocks);
  }

  /** A call that only tells the host something frees nothing. */
  lemma NotifyAnswers(offset: int, name: string, request: seq<byte>, reply: Reply)
    requires Fitting(offset, reply)
    ensures CallSpec(offset, Notify(name, request), reply) == (Acknowledged, offset + TotalLength(reply.blocks))
    ensures Ideal(Notify(name, request), reply) == Acknowledged
  {
    OffsetWhenAllFit(offset, reply.blocks);
  }

  /** One block alone: it is received exactly when it fits what is left of the 1048576 bytes. */
  lemma OneBlockReply(offset: int, store: string, key: seq<byte>, block: Block, affected: int64)
    requires 0 <= offset <= 1048576 && block != []
    ensures CallSpec(offset, Lookup(store, key), Reply([block], 0, -1, affected))
         == if offset + |block| <= 1048576 then (Found(block), 0) else (Missing, offset)
  {
    assert [block][..0] == [];
  }

  /** Every block is where its pointer says, or has pointer 0 and was not placed. */
  ghost predicate AllNamed(live: seq<Allocation>, address: int32, offset: int, blocks: seq<Block>, ptrs: seq<int32>) {
    && |ptrs| <= |blocks|
    && forall k :: 0 <= k < |ptrs| ==>
      if ptrs[k] == 0 then Delivered(offset, blocks, k) == []
      else Delivered(offset, blocks, k) == blocks[k] != [] && address <= ptrs[k] && Allocation(ptrs[k] - address, blocks[k]) in live
  }

  lemma NameOneMore(s: State, address: int32, offset: int, blocks: seq<Block>, ptrs: seq<int32>, ptr: int32)
    requires |ptrs| < |blocks| && AllNamed(s.live, address, offset, blocks, ptrs)
    requires 0 <= s.offset == OffsetAfter(offset, blocks[..|ptrs|])
    requires ptr != 0 <==> Fits(s.offset, blocks[|ptrs|])
    requires ptr != 0 ==> ptr == address + s.offset
    ensures var t := Step(s, Place(blocks[|ptrs|]));
      && AllNamed(t.live, address, offset, blocks, ptrs + [ptr])
      && t.offset == OffsetAfter(offset, blocks[..|ptrs| + 1])
  {
    assert blocks[..|ptrs| + 1][..|ptrs|] == blocks[..|ptrs|];
  }

  method PlaceAll(arena: Arena, blocks: seq<Block>) returns (ptrs: seq<int32>)
    requires arena.Valid()
    modifies arena, arena.memory
    ensures arena.Valid() && arena.offset == OffsetAfter(old(arena.offset), blocks)
    ensures arena.generation == old(arena.generation)
    ensures |ptrs| == |blocks| && AllNamed(arena.live, arena.address, old(arena.offset), blocks, ptrs)
  {
    ptrs := [];
    for i := 0 to |blocks|
      invariant |ptrs| == i && arena.Valid() && arena.generation == old(arena.generation)
      invariant arena.offset == OffsetAfter(old(arena.offset), blocks[..i])
      invariant AllNamed(arena.live, arena.address, old(arena.offset), blocks, ptrs)
    {
      ghost var before := arena.Abstract();
      var ptr := arena.HostPut(blocks[i]);
      NameOneMore(before, arena.address, old(arena.offset), blocks, ptrs, ptr);
      ptrs := ptrs + [ptr];
    }
    assert blocks[..|blocks|] == blocks;
  }

  lemma FourWords(a: int32, b: int32, c: int32, d: int32)
    ensures var out := Word(a) + Word(b) + Word(c) + Word(d);
      Int32At(out, 0) == a && Int32At(out, 4) == b && Int32At(out, 8) == c && Int32At(out, 12) == d
  {
    var out := Word(a) + Word(b) + Word(c) + Word(d);
    assert out[0..4] == Word(a) && out[4..8] == Word(b) && out[8..12] == Word(c) && out[12..16] == Word(d);
    WordRoundTrip(out, 0, a);
    WordRoundTrip(out, 4, b);
    WordRoundTrip(out, 8, c);
    WordRoundTrip(out, 12, d);
  }

  /** A pointer and length the host reports for exactly these bytes. */
  ghost predicate Reports(arena: Arena, ptr: int32, length: int32, data: seq<byte>)
    reads arena
  {
    length == |data| && arena.Names(ptr, length, data)
  }

  /** What the host writes into the outputs for the i-th block: its pointer and length, or two zeros. */
  function ReportOf(blocks: seq<Block>, ptrs: seq<int32>, i: int): (int32, int32)
    requires |ptrs| == |blocks|
  {
    if 0 <= i < |blocks| && ptrs[i] != 0 then (ptrs[i], |blocks[i]|) else (0, 0)
  }

  lemma ReportIsDelivered(arena: Arena, offset: int, blocks: seq<Block>, ptrs: seq<int32>, i: int)
    requires |ptrs| == |blocks| && AllNamed(arena.live, arena.address, offset, blocks, ptrs)
    ensures var (ptr, length) := ReportOf(blocks, ptrs, i);
      Reports(arena, ptr, length, Delivered(offset, blocks, i))
  {
  }

  /** The host's half of a call: it leaves the four outputs pointing at what it managed to place. */
  method Answer(arena: Arena, reply: Reply) returns (out: seq<byte>)
    requires arena.Valid()
    modifies arena, arena.memory
    ensures arena.Valid() && arena.offset == OffsetAfter(old(arena.offset), reply.blocks)
    ensures arena.generation == old(arena.generation)
    ensures |out| == 16
    ensures Reports(arena, Int32At(out, 0), Int32At(out, 4), Delivered(old(arena.offset), reply.blocks, reply.result))
    ensures Reports(arena, Int32At(out, 8), Int32At(out, 12), Delivered(old(arena.offset), reply.blocks, reply.failure))
  {
    var ptrs := PlaceAll(arena, reply.blocks);
    var res, err := ReportOf(reply.blocks, ptrs, reply.result), ReportOf(reply.blocks, ptrs, reply.failure);
    ReportIsDelivered(arena, old(arena.offset), reply.blocks, ptrs, reply.result);
    ReportIsDelivered(arena, old(arena.offset), reply.blocks, ptrs, reply.failure);
    out := Word(res.0) + Word(res.1) + Word(err.0) + Word(err.1);
    FourWords(res.0, res.1, err.0, err.1);
  }

  /** The host's half of an Exec: the same, with the count of changed rows in place of a result. */
  method AnswerExec(arena: Arena, reply: Reply) returns (out: seq<byte>)
    requires arena.Valid()
    modifies arena, arena.memory
    ensures arena.Valid() && arena.offset == OffsetAfter(old(arena.offset), reply.blocks)
    ensures arena.generation == old(arena.generation)
    ensures |out| == 16 && Int64At(out, 0) == reply.affected
    ensures Reports(arena, Int32At(out, 8), Int32At(out, 12), Delivered(old(arena.offset), reply.blocks, reply.failure))
  {
    var ptrs := PlaceAll(arena, reply.blocks);
    var err := ReportOf(reply.blocks, ptrs, reply.failure);
    ReportIsDelivered(arena, old(arena.offset), reply.blocks, ptrs, reply.failure);
    out := Long(reply.affected) + Word(err.0) + Word(err.1);
    LongAndWords(reply.affected, err.0, err.1);
  }

  lemma LongAndWords(n: int64, a: int32, b: int32)
    ensures var out := Long(n) + Word(a) + Word(b);
      Int64At(out, 0) == n && Int32At(out, 8) == a && Int32At(out, 12) == b
  {
    var out := Long(n) + Word(a) + Word(b);
    assert out[0..0 + 8] == Long(n) && out[8..8 + 4] == Word(a) && out[12..12 + 4] == Word(b);
    LongRoundTrip(out, 0, n);
    WordRoundTrip(out, 8, a);
    WordRoundTrip(out, 12, b);
  }

  /** Get of the KV, cache and config backends. */
  method Get(arena: Arena, store: string, key: seq<byte>, reply: Reply) returns (o: Outcome)
    requires arena.Valid()
    modifies arena, arena.memory
    ensures arena.Valid() && arena.generation == old(arena.generation) + Resets(o)
    ensures (o, arena.offset) == CallSpec(old(arena.offset), Lookup(store, key), reply)
    ensures var value := Delivered(old(arena.offset), reply.blocks, reply.result);
      && (value != [] ==> o == Found(value) && arena.offset == 0)
      && (value == [] ==> o == Missing && arena.offset == OffsetAfter(old(arena.offset), reply.blocks))
  {
    var out := Answer(arena, reply);
    var valPtr, valLen := Int32At(out, 0), Int32At(out, 4);
    if valLen == 0 {
      return Missing;
    }
    var val := arena.LoadAt(valPtr, valLen, Delivered(old(arena.offset), reply.blocks, reply.result));
    arena.Reset();
    return Found(val);
  }

  /** wasmDBBackend.Query: the rows are decoded through the slice, before the reset. */
  method QueryRows(arena: Arena, sql: seq<byte>, params: seq<byte>, reply: Reply) returns (o: Outcome)
    requires arena.Valid()
    modifies arena, arena.memory
    ensures arena.Valid() && arena.generation == old(arena.generation) + Resets(o)
    ensures (o, arena.offset) == CallSpec(old(arena.offset), Query(sql, params), reply)
    ensures var (rows, failure) := (Delivered(old(arena.offset), reply.blocks, reply.result), Delivered(old(arena.offset), reply.blocks, reply.failure));
      && (failure != [] ==> o == Failed(failure) && arena.offset == 0)
      && (failure == [] && rows != [] ==> o == Rows(rows) && arena.offset == 0)
      && (failure == [] && rows == [] ==> o == NoRows && arena.offset == OffsetAfter(old(arena.offset), reply.blocks))
  {
    var out := Answer(arena, reply);
    var resPtr, resLen := Int32At(out, 0), Int32At(out, 4);
    var errPtr, errLen := Int32At(out, 8), Int32At(out, 12);
    if errLen > 0 {
      var msg := arena.LoadAt(errPtr, errLen, Delivered(old(arena.offset), reply.blocks, reply.failure));
      arena.Reset();
      return Failed(msg);
    }
    if resLen == 0 {
      return NoRows;
    }
    var encoded := arena.LoadAt(resPtr, resLen, Delivered(old(arena.offset), reply.blocks, reply.result));
    arena.Reset();
    return Rows(encoded);
  }

  /** wasmDBBackend.Exec. */
  method ExecStatement(arena: Arena, sql: seq<byte>, params: seq<byte>, reply: Reply) returns (o: Outcome)
    requires arena.Valid()
    modifies arena, arena.memory
    ensures arena.Valid() && arena.generation == old(arena.generation) + Resets(o)
    ensures (o, arena.offset) == CallSpec(old(arena.offset), Exec(sql, params), reply)
    ensures var failure := Delivered(old(arena.offset), reply.blocks, reply.failure);
      && (failure != [] ==> o == Failed(failure) && arena.offset == 0)
      && (failure == [] ==> o == Affected(reply.affected) && arena.offset == OffsetAfter(old(arena.offset), reply.blocks))
  {
    var out := AnswerExec(arena, reply);
    var rowsAffected := Int64At(out, 0);
    var errPtr, errLen := Int32At(out, 8), Int32At(out, 12);
    if errLen > 0 {
      var msg := arena.LoadAt(errPtr, errLen, Delivered(old(arena.offset), reply.blocks, reply.failure));
      arena.Reset();
      return Failed(msg);
    }
    return Affected(rowsAffected);
  }

  /** callFetchHost, GetBranding and CallHostFunction: copy the response out, reset, decode the copy. */
  method CallHost(arena: Arena, name: string, request: seq<byte>, reply: Reply) returns (o: Outcome)
    requires arena.Valid()
    modifies arena, arena.memory
    ensures arena.Valid() && arena.generation == old(arena.generation) + Resets(o)
    ensures (o, arena.offset) == CallSpec(old(arena.offset), Exchange(name, request), reply)
    ensures var response := Delivered(old(arena.offset), reply.blocks, reply.result);
      && (response != [] ==> o == Body(response) && arena.offset == 0)
      && (response == [] ==> o == NoData && arena.offset == OffsetAfter(old(arena.offset), reply.blocks))
  {
    var out := Answer(arena, reply);
    var resPtr, resLen := Int32At(out, 0), Int32At(out, 4);
    if resLen == 0 {
      return NoData;
    }
    var response := arena.LoadAt(resPtr, resLen, Delivered(old(arena.offset), reply.blocks, reply.result));
    arena.Reset();
    return Body(response);
  }

  method Perform(arena: Arena, call: HostCall, reply: Reply) returns (o: Outcome)
    requires arena.Valid()
    modifies arena, arena.memory
    ensures arena.Valid() && arena.generation == old(arena.generation) + Resets(o)
    ensures (o, arena.offset) == CallSpec(old(arena.offset), call, reply)
  {
    match call
    case Lookup(store, key) => o := Get(arena, store, key, reply);
    case Query(sql, params) => o := QueryRows(arena, sql, params, reply);
    case Exec(sql, params) => o := ExecStatement(arena, sql, params, reply);
    case Exchange(name, request) => o := CallHost(arena, name, request, reply);
    case Notify(_, _) =>
      var _ := Answer(arena, reply);
      o := Acknowledged;
  }
}

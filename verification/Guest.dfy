/**
 The guest as the host sees it: exports that decode what the host placed in the arena, run plugin code
 that keeps calling the host through the same arena, and hand back a result from outside it.
 */
module GuestModel {
  import opened Options
  import opened Machine
  import opened ArenaModel
  import opened Backends

  datatype Move = Call(call: HostCall) | ReadPayload | Return(ok: bool, result: seq<byte>)

  datatype Kind = HandleRequest | EvaluateCondition | RunAction

  /** What plugin code gets to know: that it is started and with what, and the answers to its calls. */
  datatype Sight<Msg> =
    | Initialising
    | Handling(kind: Kind, msg: Msg)
    | HandlingEvent(topic: seq<byte>)
    | Saw(outcome: Outcome)
    | SawPayload(payload: seq<byte>)

  /**
   Plugin code: its next move is any function of everything the plugin has ever seen, in this run and in
   those before it. A handler that returns does so within some number of moves, its budget.
   */
  datatype Handler<!Msg> = Handler(next: seq<Sight<Msg>> -> Move, budget: nat)

  /** The host: its reply to the last call of a history is any function of the whole history. */
  type Host = seq<HostCall> -> Reply

  datatype Progress<Msg> = Progress(offset: int, log: seq<HostCall>, seen: seq<Sight<Msg>>)

  datatype Ran<Msg> = Ran(ok: bool, result: seq<byte>, end: Progress<Msg>)

  function RunSpec<Msg>(h: Handler<Msg>, host: Host, payload: seq<byte>, at: Progress<Msg>): Ran<Msg>
    decreases h.budget
  {
    if h.budget == 0 then Ran(false, [], at)
    else
      var rest := h.(budget := h.budget - 1);
      match h.next(at.seen)
      case Return(ok, result) => Ran(ok, result, at)
      case ReadPayload => RunSpec(rest, host, payload, at.(seen := at.seen + [SawPayload(payload)]))
      case Call(call) =>
        var log := at.log + [call];
        var (o, offset) := CallSpec(at.offset, call, host(log));
        RunSpec(rest, host, payload, Progress(offset, log, at.seen + [Saw(o)]))
  }

  /** The same run with no arena at all: every reply arrives whole, whatever was in memory before. */
  function IdealRun<Msg>(h: Handler<Msg>, host: Host, payload: seq<byte>, log: seq<HostCall>, seen: seq<Sight<Msg>>)
    : (bool, seq<byte>, seq<HostCall>, seq<Sight<Msg>>)
    decreases h.budget
  {
    if h.budget == 0 then (false, [], log, seen)
    else
      var rest := h.(budget := h.budget - 1);
      match h.next(seen)
      case Return(ok, result) => (ok, result, log, seen)
      case ReadPayload => IdealRun(rest, host, payload, log, seen + [SawPayload(payload)])
      case Call(call) => IdealRun(rest, host, payload, log + [call], seen + [Saw(Ideal(call, host(log + [call])))])
  }

  /** The host allocates only to report data, and never more in one reply than `room` bytes. */
  ghost predicate TidyHost(host: Host, room: int) {
    forall log: seq<HostCall> :: log != [] ==>
      Tidy(log[|log| - 1], host(log)) && TotalLength(host(log).blocks) <= room
  }

  /**
   With a tidy host whose replies fit beside the request still in the arena, the arena cannot be
   observed: any number of calls later the handler has seen, called and returned what it would have
   with unlimited memory. This is what the resets in mid-handler are for.
   */
  lemma {:induction false} ArenaIsInvisible<Msg>(h: Handler<Msg>, host: Host, payload: seq<byte>, at: Progress<Msg>, room: nat)
    requires 0 <= at.offset && at.offset + room <= CAPACITY
    requires TidyHost(host, room)
    ensures var r := RunSpec(h, host, payload, at);
      && (r.ok, r.result, r.end.log, r.end.seen) == IdealRun(h, host, payload, at.log, at.seen)
      && (r.end.offset == at.offset || r.end.offset == 0)
    decreases h.budget
  {
    if h.budget != 0 {
      var rest := h.(budget := h.budget - 1);
      match h.next(at.seen)
      case Return(_, _) =>
      case ReadPayload =>
        ArenaIsInvisible(rest, host, payload, at.(seen := at.seen + [SawPayload(payload)]), room);
      case Call(call) =>
        var log := at.log + [call];
        var (o, offset) := CallSpec(at.offset, call, host(log));
        assert log[|log| - 1] == call;
        NothingIsLost(at.offset, call, host(log));
        ArenaIsInvisible(rest, host, payload, Progress(offset, log, at.seen + [Saw(o)]), room);
    }
  }

  /** Why an export answers without a handler: the answer may name what was decoded. */
  datatype Problem<Msg> =
    | BadPayload(payload: seq<byte>)
    | InitFailed(message: seq<byte>)
    | NoHandler(msg: Msg)
    | TooLarge(size: nat)

  /**
   The plugin with its message decoding, its handlers and the encodings of its error answers. Which
   handlers it has depends on what it has seen: Init registers them, and may ask the host first.
   */
  datatype Plugin<!Msg> = Plugin(
    decode: (Kind, seq<byte>) -> Option<Msg>,
    init: Handler<Msg>,
    handler: (seq<Sight<Msg>>, Kind, Msg) -> Option<Handler<Msg>>,
    onEvent: (seq<Sight<Msg>>, seq<byte>) -> Option<Handler<Msg>>,
    report: (Kind, Problem<Msg>) -> seq<byte>)

  /** The guest between exports; `memory` is what plugin code has seen so far, in all its runs. */
  datatype GuestState<Msg> = GuestState(initted: bool, offset: int, log: seq<HostCall>, memory: seq<Sight<Msg>>)

  /** One run of plugin code: it starts from the plugin's memory, and adds to it. */
  function Act<Msg>(h: Handler<Msg>, host: Host, start: Sight<Msg>, payload: seq<byte>, s: GuestState<Msg>)
    : (bool, seq<byte>, GuestState<Msg>)
  {
    var r := RunSpec(h, host, payload, Progress(s.offset, s.log, s.memory + [start]));
    (r.ok, r.result, GuestState(s.initted, r.end.offset, r.end.log, r.end.seen))
  }

  const MAX_RESULT_BYTES := 16 * 0x10_0000

  function InitSpec<Msg>(p: Plugin<Msg>, host: Host, s: GuestState<Msg>): (Option<seq<byte>>, GuestState<Msg>) {
    if s.initted then (None, s)
    else
      var (ok, message, t) := Act(p.init, host, Initialising, [], s);
      (if ok then None else Some(message), t.(initted := ok))
  }

  /** Handling one message, given as a value rather than as a window into the arena. */
  function MessageSpec<Msg>(p: Plugin<Msg>, host: Host, kind: Kind, payload: seq<byte>, s: GuestState<Msg>): (seq<byte>, GuestState<Msg>) {
    match p.decode(kind, payload)
    case None => (p.report(kind, BadPayload(payload)), s)
    case Some(msg) =>
      var (err, t) := InitSpec(p, host, s);
      if err.Some? then (p.report(kind, InitFailed(err.value)), t)
      else
        match p.handler(t.memory, kind, msg)
        case None => (p.report(kind, NoHandler(msg)), t)
        case Some(h) =>
          var (_, result, u) := Act(h, host, Handling(kind, msg), [], t);
          (result, u)
  }

  function Bounded<Msg>(p: Plugin<Msg>, kind: Kind, result: seq<byte>): seq<byte> {
    if |result| <= MAX_RESULT_BYTES then result else p.report(kind, TooLarge(|result|))
  }

  function ExportSpec<Msg>(p: Plugin<Msg>, host: Host, kind: Kind, payload: seq<byte>, s: GuestState<Msg>): (seq<byte>, GuestState<Msg>) {
    var (result, t) := MessageSpec(p, host, kind, payload, s);
    (Bounded(p, kind, result), t.(offset := 0))
  }

  function EventSpec<Msg>(p: Plugin<Msg>, host: Host, topic: seq<byte>, payload: seq<byte>, s: GuestState<Msg>): GuestState<Msg> {
    var (err, t) := InitSpec(p, host, s);
    if err.Some? then t
    else
      match p.onEvent(t.memory, topic)
      case None => t
      case Some(h) => Act(h, host, HandlingEvent(topic), payload, t).2
  }

  /** One run of plugin code does the same from any offset that leaves the host room. */
  lemma ActIgnoresOffset<Msg>(h: Handler<Msg>, host: Host, start: Sight<Msg>, payload: seq<byte>, s: GuestState<Msg>, offset: int, room: nat)
    requires 0 <= s.offset && s.offset + room <= CAPACITY && 0 <= offset && offset + room <= CAPACITY
    requires TidyHost(host, room)
    ensures var (ok, result, t) := Act(h, host, start, payload, s);
      var (ok', result', t') := Act(h, host, start, payload, s.(offset := offset));
      && ok == ok' && result == result' && t.(offset := 0) == t'.(offset := 0)
      && 0 <= t.offset && t.offset + room <= CAPACITY && 0 <= t'.offset && t'.offset + room <= CAPACITY
  {
    var seen := s.memory + [start];
    ArenaIsInvisible(h, host, payload, Progress(s.offset, s.log, seen), room);
    ArenaIsInvisible(h, host, payload, Progress(offset, s.log, seen), room);
  }

  lemma InitIgnoresOffset<Msg>(p: Plugin<Msg>, host: Host, s: GuestState<Msg>, offset: int, room: nat)
    requires 0 <= s.offset && s.offset + room <= CAPACITY && 0 <= offset && offset + room <= CAPACITY
    requires TidyHost(host, room)
    ensures var (e, t) := InitSpec(p, host, s);
      var (e', t') := InitSpec(p, host, s.(offset := offset));
      && e == e' && t.(offset := 0) == t'.(offset := 0)
      && 0 <= t.offset && t.offset + room <= CAPACITY && 0 <= t'.offset && t'.offset + room <= CAPACITY
  {
    if !s.initted {
      ActIgnoresOffset(p.init, host, Initialising, [], s, offset, room);
    }
  }

  /**
   An export answers, calls the host and leaves the guest the same however much of the arena was in use,
   as long as a tidy host's replies fit beside it.
   */
  lemma ExportIgnoresOffset<Msg>(p: Plugin<Msg>, host: Host, kind: Kind, payload: seq<byte>, s: GuestState<Msg>, offset: int, room: nat)
    requires 0 <= s.offset && s.offset + room <= CAPACITY && 0 <= offset && offset + room <= CAPACITY
    requires TidyHost(host, room)
    ensures ExportSpec(p, host, kind, payload, s) == ExportSpec(p, host, kind, payload, s.(offset := offset))
  {
    InitIgnoresOffset(p, host, s, offset, room);
    var t, t' := InitSpec(p, host, s).1, InitSpec(p, host, s.(offset := offset)).1;
    assert t'.(offset := 0).(offset := t'.offset) == t' == t.(offset := t'.offset);
    var msg := p.decode(kind, payload);
    if msg.Some? && p.handler(t.memory, kind, msg.value).Some? {
      ActIgnoresOffset(p.handler(t.memory, kind, msg.value).value, host, Handling(kind, msg.value), [], t, t'.offset, room);
    }
  }

  /** What the host does between and around exports. */
  datatype Job =
    | Export(kind: Kind, request: Block)
    | Event(topic: Block, payload: Block)
    | Initialise
    | ResetAllocator

  datatype Reaction = Answered(result: seq<byte>) | Refused | Handled

  function Lands(offset: int, block: Block): bool {
    block == [] || Fits(offset, block)
  }

  function After(offset: int, block: Block): int {
    if Fits(offset, block) then offset + |block| else offset
  }

  /** One host job as a message exchange: bytes are passed by value, nothing aliases anything. */
  function JobSpec<Msg>(p: Plugin<Msg>, host: Host, job: Job, s: GuestState<Msg>): (Reaction, GuestState<Msg>) {
    match job
    case Export(kind, request) =>
      var t := s.(offset := After(s.offset, request));
      if Lands(s.offset, request) then
        var (r, u) := ExportSpec(p, host, kind, request, t);
        (Answered(r), u)
      else (Refused, t)
    case Event(topic, payload) =>
      var t := s.(offset := After(s.offset, topic));
      var u := t.(offset := After(t.offset, payload));
      if Lands(s.offset, topic) && Lands(t.offset, payload) then (Handled, EventSpec(p, host, topic, payload, u)) else (Refused, u)
    case Initialise => (Handled, InitSpec(p, host, s).1)
    case ResetAllocator => (Handled, s.(offset := 0))
  }

  function SessionSpec<Msg>(p: Plugin<Msg>, host: Host, jobs: seq<Job>): (seq<Reaction>, GuestState<Msg>) {
    if jobs == [] then ([], GuestState(false, 0, [], []))
    else
      var (done, s) := SessionSpec(p, host, jobs[..|jobs| - 1]);
      var (r, t) := JobSpec(p, host, jobs[|jobs| - 1], s);
      (done + [r], t)
  }

  /** Every export leaves the arena empty, so a host that only sends exports and resets is never refused. */
  lemma {:induction false} ExportsAreNeverRefused<Msg>(p: Plugin<Msg>, host: Host, jobs: seq<Job>)
    requires forall j :: j in jobs ==> j.ResetAllocator? || (j.Export? && |j.request| <= CAPACITY)
    ensures SessionSpec(p, host, jobs).1.offset == 0
    ensures |SessionSpec(p, host, jobs).0| == |jobs|
    ensures forall i :: 0 <= i < |jobs| && jobs[i].Export? ==> SessionSpec(p, host, jobs).0[i].Answered?
  {
    if jobs != [] {
      ExportsAreNeverRefused(p, host, jobs[..|jobs| - 1]);
    }
  }

  class Guest<Msg> {
    const plugin: Plugin<Msg>
    const host: Host
    const arena: Arena
    var initted: bool
    var log: seq<HostCall>
    var memory: seq<Sight<Msg>>
    var resultBuf: array?<byte>

    ghost predicate Valid()
      reads this, arena, arena.memory
    {
      arena.Valid() && resultBuf != arena.memory
    }

    ghost function Abstract(): GuestState<Msg>
      reads this, arena
    {
      GuestState(initted, arena.offset, log, memory)
    }

    constructor (plugin: Plugin<Msg>, host: Host, arena: Arena)
      requires arena.Valid() && arena.offset == 0
      ensures Valid() && Abstract() == GuestState(false, 0, [], [])
      ensures this.plugin == plugin && this.host == host && this.arena == arena && resultBuf == null
    {
      this.plugin, this.host, this.arena := plugin, host, arena;
      initted, log, memory, resultBuf := false, [], [], null;
    }

    /** Plugin code running; `payload` is the memory it would read an event payload from. */
    method RunHandler(h: Handler<Msg>, start: Sight<Msg>, payload: array<byte>) returns (ok: bool, result: seq<byte>)
      requires Valid() && payload != arena.memory
      modifies this`log, this`memory, arena, arena.memory
      ensures Valid() && arena.generation >= old(arena.generation)
      ensures (ok, result, Abstract()) == Act(h, host, start, old(payload[..]), old(Abstract()))
    {
      memory := memory + [start];
      ghost var whole := RunSpec(h, host, payload[..], Progress(arena.offset, log, memory));
      var left := h.budget;
      while left > 0
        invariant 0 <= left <= h.budget && Valid() && payload[..] == old(payload[..])
        invariant initted == old(initted) && arena.generation >= old(arena.generation)
        invariant whole == RunSpec(h.(budget := left), host, old(payload[..]), Progress(arena.offset, log, memory))
      {
        match h.next(memory) {
          case Return(ok', result') =>
            return ok', result';
          case ReadPayload =>
            memory := memory + [SawPayload(payload[..])];
          case Call(call) =>
            log := log + [call];
            var o := Perform(arena, call, host(log));
            memory := memory + [Saw(o)];
        }
        left := left - 1;
      }
      return false, [];
    }

    /** dispatcher.init: a successful Init runs once, a failed one is tried again by the next export. */
    method Init() returns (err: Option<seq<byte>>)
      requires Valid()
      modifies this`log, this`memory, this`initted, arena, arena.memory
      ensures Valid() && arena.generation >= old(arena.generation)
      ensures (err, Abstract()) == InitSpec(plugin, host, old(Abstract()))
    {
      if initted {
        return None;
      }
      var nothing := new byte[0];
      assert nothing[..] == [];
      var ok, message := RunHandler(plugin.init, Initialising, nothing);
      if !ok {
        return Some(message);
      }
      initted := true;
      return None;
    }

    /**
     handleRequest, evaluateCondition and runAction: decode first, initialise second, then run the handler.
     `payload` still aliases the arena, which Init and the handler overwrite: once one of their calls
     received data, it can no longer be read.
     */
    method HandleMessage(kind: Kind, payload: View, ghost data: seq<byte>) returns (result: seq<byte>)
      requires Valid() && WindowOn(payload, data)
      modifies this`log, this`memory, this`initted, arena, arena.memory
      ensures Valid() && arena.generation >= old(arena.generation)
      ensures payload.Window? && arena.generation > old(arena.generation) ==> !arena.Readable(payload)
      ensures (result, Abstract()) == MessageSpec(plugin, host, kind, data, old(Abstract()))
    {
      var bytes := arena.Load(payload);
      match plugin.decode(kind, bytes)
      case None => result := plugin.report(kind, BadPayload(bytes));
      case Some(msg) =>
        var err := Init();
        if err.Some? {
          return plugin.report(kind, InitFailed(err.value));
        }
        match plugin.handler(memory, kind, msg)
        case None => result := plugin.report(kind, NoHandler(msg));
        case Some(h) =>
          var nothing := new byte[0];
          assert nothing[..] == [];
          var ok;
          ok, result := RunHandler(h, Handling(kind, msg), nothing);
    }

    ghost predicate WindowOn(v: View, data: seq<byte>)
      reads this, arena
    {
      if data == [] then v.Nothing?
      else v.Window? && v.generation == arena.generation && v.length == |data| && Allocation(v.start, data) in arena.live
    }

    /** The exports HandleRequest, EvaluateCondition and RunAction. */
    method Export(kind: Kind, ptr: int32, length: int32, ghost data: seq<byte>) returns (result: array?<byte>)
      requires Valid() && arena.Names(ptr, length, data)
      modifies this`log, this`memory, this`initted, this`resultBuf, arena, arena.memory
      ensures Valid() && arena.offset == 0
      ensures result == resultBuf && (result != null ==> fresh(result))
      ensures ((if result == null then [] else result[..]), Abstract()) == ExportSpec(plugin, host, kind, data, old(Abstract()))
    {
      var payload := arena.Slice(ptr, length);
      arena.NamedSlice(ptr, length, data);
      var answer := HandleMessage(kind, payload, data);
      arena.Reset();
      result := Pack(kind, answer);
    }

    /** packWASMResult: the result is kept outside the arena until the next export replaces it. */
    method Pack(kind: Kind, answer: seq<byte>) returns (result: array?<byte>)
      requires Valid()
      modifies this`resultBuf
      ensures Valid()
      ensures result == resultBuf && (result != null ==> fresh(result))
      ensures (if result == null then [] else result[..]) == Bounded(plugin, kind, answer)
      ensures |answer| <= 16777216 ==> (if result == null then [] else result[..]) == answer
      ensures |answer| > 16777216 ==> (if result == null then [] else result[..]) == plugin.report(kind, TooLarge(|answer|))
    {
      resultBuf := null;
      var bounded := Bounded(plugin, kind, answer);
      if bounded == [] {
        return null;
      }
      resultBuf := new byte[|bounded|](i requires 0 <= i < |bounded| => bounded[i]);
      assert resultBuf[..] == bounded;
      return resultBuf;
    }

    /** The export HandleEvent: topic and payload are copied out before the handler runs. */
    method HandleEvent(topicPtr: int32, topicLen: int32, payloadPtr: int32, payloadLen: int32,
                       ghost topicData: seq<byte>, ghost payloadData: seq<byte>)
      requires Valid() && arena.Names(topicPtr, topicLen, topicData) && arena.Names(payloadPtr, payloadLen, payloadData)
      modifies this`log, this`memory, this`initted, arena, arena.memory
      ensures Valid()
      ensures Abstract() == EventSpec(plugin, host, topicData, payloadData, old(Abstract()))
    {
      var topic := arena.LoadAt(topicPtr, topicLen, topicData);
      var copied := arena.LoadAt(payloadPtr, payloadLen, payloadData);
      var payload := new byte[|copied|](i requires 0 <= i < |copied| => copied[i]);
      assert payload[..] == payloadData;
      var err := Init();
      if err.Some? {
        return;
      }
      match plugin.onEvent(memory, topic)
      case None =>
      case Some(h) => var _, _ := RunHandler(h, HandlingEvent(topic), payload);
    }
  }

  /** The host places one payload for an export: pointer, length and whether it fitted. */
  method Send<Msg>(guest: Guest<Msg>, block: Block) returns (ptr: int32, length: int32, landed: bool)
    requires guest.Valid()
    modifies guest.arena, guest.arena.memory
    ensures guest.Valid() && guest.arena.offset == After(old(guest.arena.offset), block)
    ensures landed == Lands(old(guest.arena.offset), block)
    ensures landed ==> guest.arena.Names(ptr, length, block)
    ensures forall p, n, data :: old(guest.arena.Names(p, n, data)) ==> guest.arena.Names(p, n, data)
  {
    ptr := guest.arena.HostPut(block);
    length := if ptr == 0 then 0 else |block|;
    landed := block == [] || ptr != 0;
  }

  /**
   The host does one job. The result of the export before, if it has not read it yet, it reads as late as
   it can: after it has placed the payload of this job. It leaves the result of an export unread.
   */
  method DoJob<Msg>(guest: Guest<Msg>, job: Job, unread: bool) returns (late: seq<Reaction>, now: Option<Reaction>)
    requires guest.Valid()
    modifies guest, guest.arena, guest.arena.memory
    ensures guest.Valid()
    ensures late == if unread then [Answered(old(Read(guest)))] else []
    ensures (if now.Some? then now.value else Answered(Read(guest)), guest.Abstract())
         == JobSpec(guest.plugin, guest.host, job, old(guest.Abstract()))
  {
    late := [];
    match job {
      case Export(kind, request) =>
        var ptr, length, landed := Send(guest, request);
        if unread {
          late := [Answered(Read(guest))];
        }
        if !landed {
          return late, Some(Refused);
        }
        var _ := guest.Export(kind, ptr, length, request);
        return late, None;
      case Event(topic, payload) =>
        var topicPtr, topicLen, topicLanded := Send(guest, topic);
        var payloadPtr, payloadLen, payloadLanded := Send(guest, payload);
        if unread {
          late := [Answered(Read(guest))];
        }
        if !(topicLanded && payloadLanded) {
          return late, Some(Refused);
        }
        guest.HandleEvent(topicPtr, topicLen, payloadPtr, payloadLen, topic, payload);
        return late, Some(Handled);
      case Initialise =>
        if unread {
          late := [Answered(Read(guest))];
        }
        var _ := guest.Init();
        return late, Some(Handled);
      case ResetAllocator =>
        if unread {
          late := [Answered(Read(guest))];
        }
        guest.arena.Reset();
        return late, Some(Handled);
    }
  }

  /** A whole session: reading every result late, the host gets what the message-passing semantics says. */
  method Session<Msg>(guest: Guest<Msg>, jobs: seq<Job>) returns (reactions: seq<Reaction>)
    requires guest.Valid() && guest.Abstract() == GuestState(false, 0, [], [])
    modifies guest, guest.arena, guest.arena.memory
    ensures (reactions, guest.Abstract()) == SessionSpec(guest.plugin, guest.host, jobs)
  {
    reactions := [];
    var unread := false;
    ghost var due: seq<Reaction> := [];
    for i := 0 to |jobs|
      invariant guest.Valid()
      invariant (due, guest.Abstract()) == SessionSpec(guest.plugin, guest.host, jobs[..i])
      invariant due == if unread then reactions + [Answered(Read(guest))] else reactions
    {
      assert jobs[..i + 1][..i] == jobs[..i];
      ghost var next := JobSpec(guest.plugin, guest.host, jobs[i], guest.Abstract()).0;
      var late, now := DoJob(guest, jobs[i], unread);
      reactions := reactions + late;
      assert reactions == due;
      due := due + [next];
      unread := now.None?;
      if now.Some? {
        reactions := reactions + [now.value];
      }
    }
    assert jobs[..|jobs|] == jobs;
    if unread {
      reactions := reactions + [Answered(Read(guest))];
    }
  }

  /** What the host finds at the address packed into the last result. */
  function Read<Msg>(guest: Guest<Msg>): seq<byte>
    reads guest, guest.resultBuf
  {
    if guest.resultBuf == null then [] else guest.resultBuf[..]
  }
}

/**
 Whole sessions of jobs against the same session without an arena: when the host cannot tell the two apart,
 and when it is refused.
 */
module Sessions {
  import opened Options
  import opened Machine
  import opened ArenaModel
  import opened Backends
  import opened GuestModel

  // The session with unlimited memory: no offsets, nothing is ever refused

  function IdealAct<Msg>(h: Handler<Msg>, host: Host, start: Sight<Msg>, payload: seq<byte>, s: GuestState<Msg>)
    : (bool, seq<byte>, GuestState<Msg>)
  {
    var (ok, result, log, seen) := IdealRun(h, host, payload, s.log, s.memory + [start]);
    (ok, result, s.(log := log, memory := seen))
  }

  function IdealInit<Msg>(p: Plugin<Msg>, host: Host, s: GuestState<Msg>): (Option<seq<byte>>, GuestState<Msg>) {
    if s.initted then (None, s)
    else
      var (ok, message, t) := IdealAct(p.init, host, Initialising, [], s);
      (if ok then None else Some(message), t.(initted := ok))
  }

  function IdealMessage<Msg>(p: Plugin<Msg>, host: Host, kind: Kind, payload: seq<byte>, s: GuestState<Msg>): (seq<byte>, GuestState<Msg>) {
    match p.decode(kind, payload)
    case None => (p.report(kind, BadPayload(payload)), s)
    case Some(msg) =>
      var (err, t) := IdealInit(p, host, s);
      if err.Some? then (p.report(kind, InitFailed(err.value)), t)
      else
        match p.handler(t.memory, kind, msg)
        case None => (p.report(kind, NoHandler(msg)), t)
        case Some(h) =>
          var (_, result, u) := IdealAct(h, host, Handling(kind, msg), [], t);
          (result, u)
  }

  function IdealEvent<Msg>(p: Plugin<Msg>, host: Host, topic: seq<byte>, payload: seq<byte>, s: GuestState<Msg>): GuestState<Msg> {
    var (err, t) := IdealInit(p, host, s);
    if err.Some? then t
    else
      match p.onEvent(t.memory, topic)
      case None => t
      case Some(h) => IdealAct(h, host, HandlingEvent(topic), payload, t).2
  }

  function IdealJob<Msg>(p: Plugin<Msg>, host: Host, job: Job, s: GuestState<Msg>): (Reaction, GuestState<Msg>) {
    match job
    case Export(kind, request) =>
      var (result, t) := IdealMessage(p, host, kind, request, s);
      (Answered(Bounded(p, kind, result)), t)
    case Event(topic, payload) => (Handled, IdealEvent(p, host, topic, payload, s))
    case Initialise => (Handled, IdealInit(p, host, s).1)
    case ResetAllocator => (Handled, s)
  }

  function IdealSession<Msg>(p: Plugin<Msg>, host: Host, jobs: seq<Job>): (seq<Reaction>, GuestState<Msg>) {
    if jobs == [] then ([], GuestState(false, 0, [], []))
    else
      var (done, s) := IdealSession(p, host, jobs[..|jobs| - 1]);
      var (r, t) := IdealJob(p, host, jobs[|jobs| - 1], s);
      (done + [r], t)
  }

  // One job

  /** The guest but for how much of the arena is in use. */
  function Bare<Msg>(s: GuestState<Msg>): GuestState<Msg> {
    s.(offset := 0)
  }

  predicate Leaves(offset: int, room: nat) {
    0 <= offset && offset + room <= CAPACITY
  }

  lemma ActIsIdeal<Msg>(h: Handler<Msg>, host: Host, start: Sight<Msg>, payload: seq<byte>, s: GuestState<Msg>, room: nat)
    requires Leaves(s.offset, room) && TidyHost(host, room)
    ensures var (ok, result, t) := Act(h, host, start, payload, s);
      IdealAct(h, host, start, payload, Bare(s)) == (ok, result, Bare(t)) && (t.offset == s.offset || t.offset == 0)
  {
    ArenaIsInvisible(h, host, payload, Progress(s.offset, s.log, s.memory + [start]), room);
  }

  lemma InitIsIdeal<Msg>(p: Plugin<Msg>, host: Host, s: GuestState<Msg>, room: nat)
    requires Leaves(s.offset, room) && TidyHost(host, room)
    ensures var (err, t) := InitSpec(p, host, s);
      IdealInit(p, host, Bare(s)) == (err, Bare(t)) && (t.offset == s.offset || t.offset == 0)
  {
    if !s.initted {
      ActIsIdeal(p.init, host, Initialising, [], s, room);
    }
  }

  lemma MessageIsIdeal<Msg>(p: Plugin<Msg>, host: Host, kind: Kind, payload: seq<byte>, s: GuestState<Msg>, room: nat)
    requires Leaves(s.offset, room) && TidyHost(host, room)
    ensures var (result, t) := MessageSpec(p, host, kind, payload, s);
      IdealMessage(p, host, kind, payload, Bare(s)) == (result, Bare(t))
  {
    var msg := p.decode(kind, payload);
    if msg.Some? {
      InitIsIdeal(p, host, s, room);
      var (err, t) := InitSpec(p, host, s);
      if err.None? && p.handler(t.memory, kind, msg.value).Some? {
        ActIsIdeal(p.handler(t.memory, kind, msg.value).value, host, Handling(kind, msg.value), [], t, room);
      }
    }
  }

  lemma EventIsIdeal<Msg>(p: Plugin<Msg>, host: Host, topic: seq<byte>, payload: seq<byte>, s: GuestState<Msg>, room: nat)
    requires Leaves(s.offset, room) && TidyHost(host, room)
    ensures var t := EventSpec(p, host, topic, payload, s);
      IdealEvent(p, host, topic, payload, Bare(s)) == Bare(t) && (t.offset == s.offset || t.offset == 0)
  {
    InitIsIdeal(p, host, s, room);
    var (err, t) := InitSpec(p, host, s);
    if err.None? && p.onEvent(t.memory, topic).Some? {
      ActIsIdeal(p.onEvent(t.memory, topic).value, host, HandlingEvent(topic), payload, t, room);
    }
  }

  /** The bytes the host places for a job. */
  function Size(job: Job): nat {
    match job
    case Export(_, request) => |request|
    case Event(topic, payload) => |topic| + |payload|
    case Initialise => 0
    case ResetAllocator => 0
  }

  /** The bytes placed since the last export or reset: events do not free what was placed for them. */
  function Used(jobs: seq<Job>): nat {
    if jobs == [] then 0
    else
      var last := jobs[|jobs| - 1];
      if last.Export? || last.ResetAllocator? then 0 else Used(jobs[..|jobs| - 1]) + Size(last)
  }

  lemma JobIsIdeal<Msg>(p: Plugin<Msg>, host: Host, job: Job, s: GuestState<Msg>, room: nat)
    requires Leaves(s.offset, Size(job) + room) && TidyHost(host, room)
    ensures var (r, t) := JobSpec(p, host, job, s);
      && IdealJob(p, host, job, Bare(s)) == (r, Bare(t))
      && 0 <= t.offset <= if job.Export? || job.ResetAllocator? then 0 else s.offset + Size(job)
  {
    match job
    case Export(kind, request) =>
      MessageIsIdeal(p, host, kind, request, s.(offset := After(s.offset, request)), room);
    case Event(topic, payload) =>
      var t := s.(offset := After(s.offset, topic));
      EventIsIdeal(p, host, topic, payload, t.(offset := After(t.offset, payload)), room);
    case Initialise =>
      InitIsIdeal(p, host, s, room);
    case ResetAllocator =>
  }

  // Whole sessions

  /** Beside what was placed since the last export or reset, every job leaves the host this room for its replies. */
  ghost predicate Roomy(jobs: seq<Job>, room: nat) {
    jobs == [] ||
    var before, last := jobs[..|jobs| - 1], jobs[|jobs| - 1];
    Roomy(before, room) && Used(before) + Size(last) + room <= CAPACITY
  }

  /**
   A tidy host that leaves room for its replies cannot tell a session through the one arena from a session
   with unlimited memory: the same reactions, the same host calls, the same plugin in the end.
   */
  lemma {:induction false} SessionIsIdeal<Msg>(p: Plugin<Msg>, host: Host, jobs: seq<Job>, room: nat)
    requires TidyHost(host, room) && Roomy(jobs, room)
    ensures var (reactions, s) := SessionSpec(p, host, jobs);
      && IdealSession(p, host, jobs) == (reactions, Bare(s))
      && 0 <= s.offset <= Used(jobs)
  {
    if jobs != [] {
      var before := jobs[..|jobs| - 1];
      SessionIsIdeal(p, host, before, room);
      JobIsIdeal(p, host, jobs[|jobs| - 1], SessionSpec(p, host, before).1, room);
    }
  }

  lemma {:induction false} IdealNeverRefuses<Msg>(p: Plugin<Msg>, host: Host, jobs: seq<Job>)
    ensures |IdealSession(p, host, jobs).0| == |jobs|
    ensures forall i :: 0 <= i < |jobs| ==> !IdealSession(p, host, jobs).0[i].Refused?
  {
    if jobs != [] {
      IdealNeverRefuses(p, host, jobs[..|jobs| - 1]);
    }
  }

  /** So it is never refused. */
  lemma RoomySessionIsNeverRefused<Msg>(p: Plugin<Msg>, host: Host, jobs: seq<Job>, room: nat, i: nat)
    requires TidyHost(host, room) && Roomy(jobs, room) && i < |jobs|
    ensures |SessionSpec(p, host, jobs).0| == |jobs| && !SessionSpec(p, host, jobs).0[i].Refused?
  {
    SessionIsIdeal(p, host, jobs, room);
    IdealNeverRefuses(p, host, jobs);
  }

  /** Everything that places bytes comes first, or right after an export or a reset, and fits the arena. */
  ghost predicate Fresh(jobs: seq<Job>) {
    jobs == [] ||
    var before, last := jobs[..|jobs| - 1], jobs[|jobs| - 1];
    && Fresh(before)
    && (last.Export? || last.Event? ==>
         Size(last) <= CAPACITY && (before == [] || before[|before| - 1].Export? || before[|before| - 1].ResetAllocator?))
  }

  /** Such a session is never refused by any guest, however the host fills the arena with its replies. */
  lemma {:induction false} FreshSessionIsNeverRefused<Msg>(p: Plugin<Msg>, host: Host, jobs: seq<Job>)
    requires Fresh(jobs)
    ensures var (reactions, s) := SessionSpec(p, host, jobs);
      && |reactions| == |jobs|
      && (forall i :: 0 <= i < |jobs| ==> !reactions[i].Refused?)
      && (jobs == [] || jobs[|jobs| - 1].Export? || jobs[|jobs| - 1].ResetAllocator? ==> s.offset == 0)
  {
    if jobs != [] {
      FreshSessionIsNeverRefused(p, host, jobs[..|jobs| - 1]);
    }
  }

  /**
   Events alone can fill the arena: if Init makes no calls and nothing handles the topic, the second of two
   events of more than half a megabyte is refused.
   */
  lemma TwoEventsOverflow<Msg>(p: Plugin<Msg>, host: Host, payload: Block)
    requires CAPACITY < 2 * |payload| <= 2 * CAPACITY
    requires p.init.budget > 0 && p.init.next([Initialising]) == Return(true, [])
    requires p.onEvent([Initialising], []) == None
    ensures SessionSpec(p, host, [Event([], payload), Event([], payload)]).0 == [Handled, Refused]
  {
    var job: Job := Event([], payload);
    var none: seq<Sight<Msg>> := [];
    var first: seq<Sight<Msg>> := [Initialising];
    assert none + first == first;
    var s0: GuestState<Msg> := GuestState(false, 0, [], none);
    var s1: GuestState<Msg> := GuestState(true, |payload|, [], first);
    assert InitSpec(p, host, s0.(offset := |payload|)) == (None, s1);
    assert JobSpec(p, host, job, s0) == (Handled, s1);
    assert JobSpec(p, host, job, s1).0 == Refused;
    var jobs := [job, job];
    assert jobs[..1] == [job] && [job][..0] == [];
    assert SessionSpec(p, host, [job]) == ([] + [Handled], s1);
    assert SessionSpec(p, host, jobs).0 == [Handled] + [Refused];
  }
}

/** What plugin code is told while it runs, and what an export answers, case by case. */
module Exports {
  import opened Options
  import opened Machine
  import opened ArenaModel
  import opened Backends
  import opened GuestModel
  import opened Sessions

  // A run is a conversation

  /** The host calls that plugin code makes between two points of what it sees. */
  function CallsIn<Msg>(h: Handler<Msg>, seen: seq<Sight<Msg>>, from: nat, to: nat): seq<HostCall>
    requires to <= |seen|
  {
    if to <= from then []
    else
      var move := h.next(seen[..to - 1]);
      CallsIn(h, seen, from, to - 1) + if move.Call? then [move.call] else []
  }

  /** The k-th sight is the answer to the move made before it. */
  ghost predicate Answers<Msg>(h: Handler<Msg>, host: Host, payload: seq<byte>, log: seq<HostCall>, seen: seq<Sight<Msg>>, from: nat, k: nat)
    requires k < |seen|
  {
    match h.next(seen[..k])
    case Return(_, _) => false
    case ReadPayload => seen[k] == SawPayload(payload)
    case Call(call) => seen[k] == Saw(Ideal(call, host(log + CallsIn(h, seen, from, k + 1))))
  }

  /** A whole conversation, and what plugin code returned at its end. */
  ghost predicate Conversation<Msg>(h: Handler<Msg>, host: Host, payload: seq<byte>, log: seq<HostCall>, start: seq<Sight<Msg>>,
                                    ok: bool, result: seq<byte>, calls: seq<HostCall>, seen: seq<Sight<Msg>>)
  {
    && start <= seen && |seen| - |start| <= h.budget
    && calls == log + CallsIn(h, seen, |start|, |seen|)
    && (forall k :: |start| <= k < |seen| ==> Answers(h, host, payload, log, seen, |start|, k))
    && if |seen| - |start| < h.budget then h.next(seen) == Return(ok, result) else !ok && result == []
  }

  lemma {:induction false} CallsShift<Msg>(h: Handler<Msg>, seen: seq<Sight<Msg>>, from: nat, to: nat)
    requires from < to <= |seen|
    ensures var move := h.next(seen[..from]);
      CallsIn(h, seen, from, to) == (if move.Call? then [move.call] else []) + CallsIn(h, seen, from + 1, to)
  {
    if to > from + 1 {
      CallsShift(h, seen, from, to - 1);
    }
  }

  lemma {:induction false} CallsIgnoreBudget<Msg>(h: Handler<Msg>, budget: nat, seen: seq<Sight<Msg>>, from: nat, to: nat)
    requires to <= |seen|
    ensures CallsIn(h.(budget := budget), seen, from, to) == CallsIn(h, seen, from, to)
  {
    if to > from {
      CallsIgnoreBudget(h, budget, seen, from, to - 1);
    }
  }

  lemma OneMoveMore<Msg>(h: Handler<Msg>, host: Host, payload: seq<byte>, log: seq<HostCall>, start: seq<Sight<Msg>>, sight: Sight<Msg>,
                         more: seq<HostCall>, ok: bool, result: seq<byte>, calls: seq<HostCall>, seen: seq<Sight<Msg>>)
    requires h.budget > 0
    requires match h.next(start)
      case Return(_, _) => false
      case ReadPayload => sight == SawPayload(payload) && more == []
      case Call(call) => more == [call] && sight == Saw(Ideal(call, host(log + [call])))
    requires Conversation(h.(budget := h.budget - 1), host, payload, log + more, start + [sight], ok, result, calls, seen)
    ensures Conversation(h, host, payload, log, start, ok, result, calls, seen)
  {
    var rest, n := h.(budget := h.budget - 1), |start|;
    assert seen[..n] == start && seen[n] == sight;
    forall k | n < k <= |seen|
      ensures CallsIn(rest, seen, n + 1, k) == CallsIn(h, seen, n + 1, k)
      ensures log + CallsIn(h, seen, n, k) == log + more + CallsIn(h, seen, n + 1, k)
    {
      CallsIgnoreBudget(h, h.budget - 1, seen, n + 1, k);
      CallsShift(h, seen, n, k);
    }
    forall k | n <= k < |seen|
      ensures Answers(h, host, payload, log, seen, n, k)
    {
      if k == n {
        assert CallsIn(h, seen, n, n + 1) == more;
      } else {
        assert Answers(rest, host, payload, log + more, seen, n + 1, k);
      }
    }
  }

  /**
   A run with unlimited memory is a conversation: every move is the plugin's, every payload read is the
   payload, every answer is the host's reply to the calls so far, and what is returned is the last move.
   */
  lemma {:induction false} IdealRunIsConversation<Msg>(h: Handler<Msg>, host: Host, payload: seq<byte>, log: seq<HostCall>, start: seq<Sight<Msg>>)
    ensures var (ok, result, calls, seen) := IdealRun(h, host, payload, log, start);
      Conversation(h, host, payload, log, start, ok, result, calls, seen)
    decreases h.budget
  {
    var (ok, result, calls, seen) := IdealRun(h, host, payload, log, start);
    if h.budget > 0 {
      var rest := h.(budget := h.budget - 1);
      match h.next(start)
      case Return(_, _) =>
      case ReadPayload =>
        IdealRunIsConversation(rest, host, payload, log, start + [SawPayload(payload)]);
        assert log + [] == log;
        OneMoveMore(h, host, payload, log, start, SawPayload(payload), [], ok, result, calls, seen);
      case Call(call) =>
        var sight: Sight<Msg> := Saw(Ideal(call, host(log + [call])));
        IdealRunIsConversation(rest, host, payload, log + [call], start + [sight]);
        OneMoveMore(h, host, payload, log, start, sight, [call], ok, result, calls, seen);
    }
  }

  /** So is a run over the arena, if the host is tidy and its replies fit beside what is in use. */
  lemma RunIsConversation<Msg>(h: Handler<Msg>, host: Host, payload: seq<byte>, at: Progress<Msg>, room: nat)
    requires 0 <= at.offset && at.offset + room <= 1048576 && TidyHost(host, room)
    ensures var r := RunSpec(h, host, payload, at);
      Conversation(h, host, payload, at.log, at.seen, r.ok, r.result, r.end.log, r.end.seen)
  {
    ArenaIsInvisible(h, host, payload, at, room);
    IdealRunIsConversation(h, host, payload, at.log, at.seen);
  }

  // What an export answers

  /** Init has succeeded before, or runs now, from what the plugin remembers, and succeeds. */
  ghost predicate Initialised<Msg>(p: Plugin<Msg>, host: Host, s: GuestState<Msg>, t: GuestState<Msg>) {
    if s.initted then t == s
    else
      var r := RunSpec(p.init, host, [], Progress(s.offset, s.log, s.memory + [Initialising]));
      r.ok && t == GuestState(true, r.end.offset, r.end.log, r.end.seen)
  }

  /** Init runs now and fails with this message. */
  ghost predicate InitFails<Msg>(p: Plugin<Msg>, host: Host, s: GuestState<Msg>, t: GuestState<Msg>, message: seq<byte>) {
    !s.initted
    && var r := RunSpec(p.init, host, [], Progress(s.offset, s.log, s.memory + [Initialising]));
      !r.ok && r.result == message && t == GuestState(false, r.end.offset, r.end.log, r.end.seen)
  }

  /**
   The payload decodes, Init is done, a handler is found: the answer is what the handler returns, unless that
   is more than 16777216 bytes; the guest remembers the run and its arena is empty.
   */
  lemma ExportAnswers<Msg>(p: Plugin<Msg>, host: Host, kind: Kind, payload: seq<byte>, s: GuestState<Msg>, t: GuestState<Msg>, msg: Msg, h: Handler<Msg>)
    requires p.decode(kind, payload) == Some(msg) && Initialised(p, host, s, t) && p.handler(t.memory, kind, msg) == Some(h)
    ensures var r := RunSpec(h, host, [], Progress(t.offset, t.log, t.memory + [Handling(kind, msg)]));
      var (answer, u) := ExportSpec(p, host, kind, payload, s);
      && (|r.result| <= 16777216 ==> answer == r.result)
      && (|r.result| > 16777216 ==> answer == p.report(kind, TooLarge(|r.result|)))
      && u == GuestState(t.initted, 0, r.end.log, r.end.seen)
  {
  }

  /** A payload that does not decode: Init is not run, no call is made, the plugin sees nothing. */
  lemma BadPayloadAnswers<Msg>(p: Plugin<Msg>, host: Host, kind: Kind, payload: seq<byte>, s: GuestState<Msg>)
    requires p.decode(kind, payload) == None && |p.report(kind, BadPayload(payload))| <= 16777216
    ensures ExportSpec(p, host, kind, payload, s) == (p.report(kind, BadPayload(payload)), GuestState(s.initted, 0, s.log, s.memory))
  {
  }

  /** Init fails: the answer says so, no handler runs, and the next export tries Init again. */
  lemma InitFailureAnswers<Msg>(p: Plugin<Msg>, host: Host, kind: Kind, payload: seq<byte>, s: GuestState<Msg>, t: GuestState<Msg>, msg: Msg, message: seq<byte>)
    requires p.decode(kind, payload) == Some(msg) && InitFails(p, host, s, t, message)
    requires |p.report(kind, InitFailed(message))| <= 16777216
    ensures ExportSpec(p, host, kind, payload, s) == (p.report(kind, InitFailed(message)), GuestState(false, 0, t.log, t.memory))
  {
  }

  lemma NoHandlerAnswers<Msg>(p: Plugin<Msg>, host: Host, kind: Kind, payload: seq<byte>, s: GuestState<Msg>, t: GuestState<Msg>, msg: Msg)
    requires p.decode(kind, payload) == Some(msg) && Initialised(p, host, s, t) && p.handler(t.memory, kind, msg) == None
    requires |p.report(kind, NoHandler(msg))| <= 16777216
    ensures ExportSpec(p, host, kind, payload, s) == (p.report(kind, NoHandler(msg)), GuestState(t.initted, 0, t.log, t.memory))
  {
  }

  /** An event whose topic is handled: its handler runs and reads the payload; the arena stays as it leaves it. */
  lemma EventRuns<Msg>(p: Plugin<Msg>, host: Host, topic: seq<byte>, payload: seq<byte>, s: GuestState<Msg>, t: GuestState<Msg>, h: Handler<Msg>)
    requires Initialised(p, host, s, t) && p.onEvent(t.memory, topic) == Some(h)
    ensures var r := RunSpec(h, host, payload, Progress(t.offset, t.log, t.memory + [HandlingEvent(topic)]));
      EventSpec(p, host, topic, payload, s) == GuestState(t.initted, r.end.offset, r.end.log, r.end.seen)
  {
  }

  /** An event that nothing handles, or for which Init fails, runs no handler. */
  lemma EventIsDropped<Msg>(p: Plugin<Msg>, host: Host, topic: seq<byte>, payload: seq<byte>, s: GuestState<Msg>, t: GuestState<Msg>, message: seq<byte>)
    requires (Initialised(p, host, s, t) && p.onEvent(t.memory, topic) == None) || InitFails(p, host, s, t, message)
    ensures EventSpec(p, host, topic, payload, s) == t
  {
  }

  // In a session

  lemma SessionStep<Msg>(p: Plugin<Msg>, host: Host, jobs: seq<Job>, job: Job)
    ensures var ((before, s), (reaction, t)) := (SessionSpec(p, host, jobs), JobSpec(p, host, job, SessionSpec(p, host, jobs).1));
      SessionSpec(p, host, jobs + [job]) == (before + [reaction], t)
    ensures var ((before, s), (reaction, t)) := (IdealSession(p, host, jobs), IdealJob(p, host, job, IdealSession(p, host, jobs).1));
      IdealSession(p, host, jobs + [job]) == (before + [reaction], t)
  {
    assert (jobs + [job])[..|jobs|] == jobs;
  }

  /**
   The last export of any session, if its request fits beside what is in use: the host gets exactly what the
   handler returns, up to 16777216 bytes.
   */
  lemma SessionAnswers<Msg>(p: Plugin<Msg>, host: Host, jobs: seq<Job>, kind: Kind, request: Block, t: GuestState<Msg>, msg: Msg, h: Handler<Msg>)
    requires var s := SessionSpec(p, host, jobs).1;
      && 0 <= s.offset && s.offset + |request| <= 1048576
      && Initialised(p, host, s.(offset := s.offset + |request|), t)
    requires p.decode(kind, request) == Some(msg) && p.handler(t.memory, kind, msg) == Some(h)
    ensures var r := RunSpec(h, host, [], Progress(t.offset, t.log, t.memory + [Handling(kind, msg)]));
      var (before, s) := SessionSpec(p, host, jobs);
      var (reactions, u) := SessionSpec(p, host, jobs + [Job.Export(kind, request)]);
      && (|r.result| <= 16777216 ==> reactions == before + [Answered(r.result)])
      && u == GuestState(t.initted, 0, r.end.log, r.end.seen)
  {
    SessionStep(p, host, jobs, Job.Export(kind, request));
    var s := SessionSpec(p, host, jobs).1;
    assert After(s.offset, request) == s.offset + |request| && Lands(s.offset, request);
    ExportAnswers(p, host, kind, request, s.(offset := s.offset + |request|), t, msg, h);
  }

  /** The same with unlimited memory: the answer is the end of a conversation that nothing disturbs. */
  lemma IdealSessionAnswers<Msg>(p: Plugin<Msg>, host: Host, jobs: seq<Job>, kind: Kind, request: Block, msg: Msg, h: Handler<Msg>)
    requires var s := IdealSession(p, host, jobs).1;
      s.initted && p.decode(kind, request) == Some(msg) && p.handler(s.memory, kind, msg) == Some(h)
    ensures var (before, s) := IdealSession(p, host, jobs);
      var (reactions, u) := IdealSession(p, host, jobs + [Job.Export(kind, request)]);
      exists ok, result ::
        && Conversation(h, host, [], s.log, s.memory + [Handling(kind, msg)], ok, result, u.log, u.memory)
        && (|result| <= 16777216 ==> reactions == before + [Answered(result)])
  {
    SessionStep(p, host, jobs, Job.Export(kind, request));
    var (before, s) := IdealSession(p, host, jobs);
    var start := s.memory + [Handling(kind, msg)];
    IdealRunIsConversation(h, host, [], s.log, start);
    var (ok, result, calls, seen) := IdealRun(h, host, [], s.log, start);
    var (reaction, u) := IdealJob(p, host, Job.Export(kind, request), s);
    assert u.log == calls && u.memory == seen && reaction == Answered(Bounded(p, kind, result));
    assert Conversation(h, host, [], s.log, start, ok, result, u.log, u.memory);
  }
}

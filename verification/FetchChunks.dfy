/** Draining a response body that the host parked, chunk by chunk, against any host. */
module FetchChunks {
  import opened Machine

  const FETCH_CHUNK_SIZE := 256 * 1024
  const MIN_FETCH_CHUNK_SIZE := 4 * 1024
  const MAX_FETCH_BODY_BYTES := 64 * 0x10_0000

  datatype Request = Request(offset: nat, limit: nat)

  datatype ReadReply =
    | Chunk(data: seq<byte>, done: bool)
    | ResponseTooLarge
    | HostNoData
    | HostError(message: seq<byte>)

  /** The host's reply to the last read of a history: any function of the whole history. */
  type Reader = seq<Request> -> ReadReply

  datatype Result =
    | Ok(body: seq<byte>)
    | AnnouncedTooLarge
    | GaveUp(reply: ReadReply)
    | Overrun
    | SizeMismatch(got: nat)
    | EmptyChunk(offset: nat)

  predicate Retryable(reply: ReadReply) {
    reply.ResponseTooLarge? || reply.HostNoData?
  }

  datatype Turn = Stop(result: Result) | Again(body: seq<byte>, limit: nat)

  /** What one turn of the loop makes of a reply. */
  function TurnOn(reply: ReadReply, size: nat, body: seq<byte>, limit: nat): (t: Turn)
    requires |body| <= size
    ensures t.Again? ==> |t.body| <= size && size - |t.body| + t.limit < size - |body| + limit
  {
    match reply
    case Chunk(data, done) =>
      if |body| + |data| > size then Stop(Overrun)
      else if done then Stop(if |body| + |data| != size then SizeMismatch(|body| + |data|) else Ok(body + data))
      else if data == [] then Stop(EmptyChunk(|body|))
      else Again(body + data, limit)
    case _ =>
      if Retryable(reply) && limit > MIN_FETCH_CHUNK_SIZE then Again(body, limit / 2) else Stop(GaveUp(reply))
  }

  /** The loop of readBodyChunks: what it returns and every read it has made. */
  function Drain(read: Reader, size: nat, made: seq<Request>, body: seq<byte>, limit: nat): (Result, seq<Request>)
    requires |body| <= size
    decreases size - |body| + limit
  {
    var now := made + [Request(|body|, limit)];
    match TurnOn(read(now), size, body, limit)
    case Stop(result) => (result, now)
    case Again(more, next) => Drain(read, size, now, more, next)
  }

  function ReadSpec(read: Reader, size: int): (Result, seq<Request>) {
    if size < 0 || size > MAX_FETCH_BODY_BYTES then (AnnouncedTooLarge, [])
    else Drain(read, size, [], [], FETCH_CHUNK_SIZE)
  }

  method ReadBodyChunks(size: int, read: Reader) returns (r: Result, made: seq<Request>)
    ensures (r, made) == ReadSpec(read, size)
  {
    made := [];
    if size < 0 || size > MAX_FETCH_BODY_BYTES {
      return AnnouncedTooLarge, made;
    }
    var body: seq<byte> := [];
    var limit: nat := FETCH_CHUNK_SIZE;
    while true
      invariant |body| <= size
      invariant ReadSpec(read, size) == Drain(read, size, made, body, limit)
      decreases size - |body| + limit
    {
      made := made + [Request(|body|, limit)];
      match read(made) {
        case Chunk(data, done) =>
          if |body| + |data| > size {
            return Overrun, made;
          }
          body := body + data;
          if done {
            return if |body| != size then SizeMismatch(|body|) else Ok(body), made;
          }
          if data == [] {
            return EmptyChunk(|body|), made;
          }
        case reply =>
          if !Retryable(reply) || limit <= MIN_FETCH_CHUNK_SIZE {
            return GaveUp(reply), made;
          }
          limit := limit / 2;
      }
    }
  }

  // What a transcript of reads says, without the loop.

  /** Everything the host sent in the replies to these reads, in order. */
  function Sent(read: Reader, made: seq<Request>): seq<byte> {
    if made == [] then []
    else Sent(read, made[..|made| - 1]) + (if read(made).Chunk? then read(made).data else [])
  }

  /** How many of these reads were answered by "does not fit" or nothing. */
  function Shrinks(read: Reader, made: seq<Request>): nat {
    if made == [] then 0
    else Shrinks(read, made[..|made| - 1]) + (if Retryable(read(made)) then 1 else 0)
  }

  /** 256 KiB halved k times. */
  function Limit(k: nat): nat {
    if k == 0 then FETCH_CHUNK_SIZE else Limit(k - 1) / 2
  }

  /** The read at the end of the transcript asks for what is missing, at the current limit. */
  predicate AsksForNext(read: Reader, made: seq<Request>)
    requires made != []
  {
    var before := made[..|made| - 1];
    var k := Shrinks(read, before);
    k <= 6 && made[|made| - 1] == Request(|Sent(read, before)|, Limit(k))
  }

  /** After the last read of the transcript there is a reason to go on. */
  predicate GoesOn(read: Reader, size: nat, made: seq<Request>)
    requires made != []
  {
    match read(made)
    case Chunk(data, done) => !done && data != [] && |Sent(read, made)| <= size
    case reply => Retryable(reply) && made[|made| - 1].limit > MIN_FETCH_CHUNK_SIZE
  }

  /** The answer a transcript that has ended stands for. */
  function Verdict(read: Reader, size: nat, made: seq<Request>): Result
    requires made != []
  {
    match read(made)
    case Chunk(data, done) =>
      var sent := Sent(read, made);
      if |sent| > size then Overrun
      else if !done then EmptyChunk(|sent|)
      else if |sent| == size then Ok(sent)
      else SizeMismatch(|sent|)
    case reply => GaveUp(reply)
  }

  /** A transcript up to and including `made`: every read is as it must be and was reached by going on. */
  ghost predicate Transcript(read: Reader, size: nat, made: seq<Request>) {
    made == [] ||
    var before := made[..|made| - 1];
    Transcript(read, size, before) && (before != [] ==> GoesOn(read, size, before)) && AsksForNext(read, made)
  }

  lemma {:induction false} TranscriptAt(read: Reader, size: nat, made: seq<Request>, i: nat)
    requires Transcript(read, size, made) && i < |made|
    ensures AsksForNext(read, made[..i + 1])
  {
    if i == |made| - 1 {
      assert made[..i + 1] == made;
    } else {
      assert made[..|made| - 1][..i + 1] == made[..i + 1];
      TranscriptAt(read, size, made[..|made| - 1], i);
    }
  }

  lemma LimitValues()
    ensures Limit(1) == 131072 && Limit(2) == 65536 && Limit(3) == 32768 && Limit(4) == 16384 && Limit(5) == 8192 && Limit(6) == 4096
  {
    assert Limit(2) == 65536;
    assert Limit(4) == 16384;
  }

  lemma LimitShrinks(k: nat)
    requires k <= 6
    ensures MIN_FETCH_CHUNK_SIZE <= Limit(k) <= FETCH_CHUNK_SIZE
    ensures Limit(k) > MIN_FETCH_CHUNK_SIZE <==> k < 6
  {
    LimitValues();
    assert k == 0 || k == 1 || k == 2 || k == 3 || k == 4 || k == 5 || k == 6;
  }

  /** One more read continues the transcript, and adds its reply to what was sent. */
  lemma OneMoreRead(read: Reader, size: nat, made: seq<Request>, next: Request)
    requires Transcript(read, size, made) && (made != [] ==> GoesOn(read, size, made))
    requires var k := Shrinks(read, made); k <= 6 && next == Request(|Sent(read, made)|, Limit(k))
    ensures var now := made + [next];
      && Transcript(read, size, now)
      && Sent(read, now) == Sent(read, made) + (if read(now).Chunk? then read(now).data else [])
      && Shrinks(read, now) == Shrinks(read, made) + (if Retryable(read(now)) then 1 else 0)
  {
    assert (made + [next])[..|made|] == made;
  }

  /** The loop is where the transcript says: what it has kept and the limit it is at. */
  ghost predicate InStep(read: Reader, size: nat, made: seq<Request>, body: seq<byte>, limit: nat) {
    && |body| <= size && body == Sent(read, made)
    && Shrinks(read, made) <= 6 && limit == Limit(Shrinks(read, made))
    && Transcript(read, size, made) && (made != [] ==> GoesOn(read, size, made))
    && |made| <= |body| + Shrinks(read, made)
  }

  /** One turn of the loop follows the transcript: it goes on where that goes on. */
  lemma TurnGoesOn(read: Reader, size: nat, made: seq<Request>, body: seq<byte>, limit: nat)
    requires InStep(read, size, made, body, limit)
    requires GoesOn(read, size, made + [Request(|body|, limit)])
    ensures var now := made + [Request(|body|, limit)];
      var kept, next := Sent(read, now), Limit(Shrinks(read, now));
      && InStep(read, size, now, kept, next)
      && size - |kept| + next < size - |body| + limit
      && Drain(read, size, made, body, limit) == Drain(read, size, now, kept, next)
  {
    var now := made + [Request(|body|, limit)];
    LimitShrinks(Shrinks(read, made));
    OneMoreRead(read, size, made, Request(|body|, limit));
    if Retryable(read(now)) {
      assert Limit(Shrinks(read, now)) == limit / 2 && Sent(read, now) == body;
    }
  }

  /** And it ends where that ends, with its verdict. */
  lemma TurnEnds(read: Reader, size: nat, made: seq<Request>, body: seq<byte>, limit: nat)
    requires InStep(read, size, made, body, limit)
    requires !GoesOn(read, size, made + [Request(|body|, limit)])
    ensures var now := made + [Request(|body|, limit)];
      Drain(read, size, made, body, limit) == (Verdict(read, size, now), now)
  {
    var now := made + [Request(|body|, limit)];
    OneMoreRead(read, size, made, Request(|body|, limit));
    match read(now)
    case Chunk(data, _) => assert Sent(read, now) == body + data;
    case _ =>
  }

  lemma {:induction false} DrainTranscript(read: Reader, size: nat, made: seq<Request>, body: seq<byte>, limit: nat)
    requires InStep(read, size, made, body, limit)
    ensures var (r, all) := Drain(read, size, made, body, limit);
      && all != [] && Transcript(read, size, all) && !GoesOn(read, size, all)
      && r == Verdict(read, size, all)
      && |all| <= size + 7
    decreases size - |body| + limit
  {
    var now := made + [Request(|body|, limit)];
    if GoesOn(read, size, now) {
      TurnGoesOn(read, size, made, body, limit);
      DrainTranscript(read, size, now, Sent(read, now), Limit(Shrinks(read, now)));
    } else {
      TurnEnds(read, size, made, body, limit);
      OneMoreRead(read, size, made, Request(|body|, limit));
    }
  }

  /**
   Against any host: at most size + 7 reads, each asking at the offset of what was sent so far with a
   limit of 256 KiB halved up to six times, going on only for a reason; and the result is what the
   transcript stands for. In particular success means all chunks together, of exactly the announced size.
   */
  lemma ReadSpecMeansTranscript(read: Reader, size: int)
    ensures var (r, made) := ReadSpec(read, size);
      if size < 0 || size > MAX_FETCH_BODY_BYTES then r == AnnouncedTooLarge && made == []
      else
        && made != [] && |made| <= size + 7
        && Transcript(read, size, made) && !GoesOn(read, size, made)
        && r == Verdict(read, size, made)
        && (r.Ok? ==> r.body == Sent(read, made) && |r.body| == size)
  {
    if 0 <= size <= MAX_FETCH_BODY_BYTES {
      DrainTranscript(read, size, [], [], FETCH_CHUNK_SIZE);
    }
  }

  lemma {:induction false} ShrinksGrow(read: Reader, made: seq<Request>, i: nat)
    requires i <= |made|
    ensures Shrinks(read, made[..i]) <= Shrinks(read, made)
  {
    if i < |made| {
      assert made[..|made| - 1][..i] == made[..i];
      ShrinksGrow(read, made[..|made| - 1], i);
    } else {
      assert made[..i] == made;
    }
  }

  lemma {:induction false} LimitFalls(a: nat, b: nat)
    requires a <= b
    ensures Limit(b) <= Limit(a)
  {
    if a < b {
      LimitFalls(a, b - 1);
    }
  }

  /** Along any transcript the limits never grow and stay between 4 KiB and 256 KiB. */
  lemma LimitsNeverGrow(read: Reader, size: nat, made: seq<Request>, i: nat, j: nat)
    requires Transcript(read, size, made) && i <= j < |made|
    ensures MIN_FETCH_CHUNK_SIZE <= made[j].limit <= made[i].limit <= FETCH_CHUNK_SIZE
  {
    TranscriptAt(read, size, made, i);
    TranscriptAt(read, size, made, j);
    assert made[..i + 1][..i] == made[..i] && made[..j + 1][..j] == made[..j] && made[..j][..i] == made[..i];
    ShrinksGrow(read, made[..j], i);
    LimitFalls(Shrinks(read, made[..i]), Shrinks(read, made[..j]));
    LimitShrinks(Shrinks(read, made[..i]));
    LimitShrinks(Shrinks(read, made[..j]));
  }

  // The same in numbers

  lemma {:induction false} WentOn(read: Reader, size: nat, made: seq<Request>, i: nat)
    requires Transcript(read, size, made) && 0 < i < |made|
    ensures GoesOn(read, size, made[..i])
  {
    var before := made[..|made| - 1];
    if i == |made| - 1 {
      assert made[..i] == before;
    } else {
      assert before[..i] == made[..i];
      WentOn(read, size, before, i);
    }
  }

  /** What read i asks for, and what was sent after it. */
  lemma ReadAt(read: Reader, size: nat, made: seq<Request>, i: nat)
    requires Transcript(read, size, made) && i < |made|
    ensures made[i] == Request(|Sent(read, made[..i])|, Limit(Shrinks(read, made[..i])))
    ensures var reply := read(made[..i + 1]);
      && |Sent(read, made[..i + 1])| == made[i].offset + (if reply.Chunk? then |reply.data| else 0)
      && Shrinks(read, made[..i + 1]) == Shrinks(read, made[..i]) + (if reply.ResponseTooLarge? || reply.HostNoData? then 1 else 0)
  {
    TranscriptAt(read, size, made, i);
    assert made[..i + 1][..i] == made[..i];
  }

  /** How one read of a fetch follows from the reply to the one before. */
  predicate Follows(now: Request, reply: ReadReply, next: Request, size: nat) {
    match reply
    case Chunk(data, done) => !done && data != [] && now.offset + |data| <= size && next == Request(now.offset + |data|, now.limit)
    case HostError(_) => false
    case _ => now.limit > 4096 && next == Request(now.offset, now.limit / 2)
  }

  /** How the last reply decides the result. */
  predicate Decides(now: Request, reply: ReadReply, size: nat, r: Result) {
    match reply
    case Chunk(data, done) =>
      if now.offset + |data| > size then r == Overrun
      else if !done then data == [] && r == EmptyChunk(now.offset)
      else if now.offset + |data| == size then r.Ok? && |r.body| == size
      else r == SizeMismatch(now.offset + |data|)
    case HostError(message) => r == GaveUp(HostError(message))
    case _ => now.limit <= 4096 && r == GaveUp(reply)
  }

  /**
   Every fetch, reply by reply: up to 67108864 bytes are fetched and no more, the first read asks for 262144
   at 0, a chunk moves on, a reply that did not fit or did not come halves the limit down to 4096, and
   anything else ends it.
   */
  lemma FetchInNumbers(read: Reader, size: int)
    ensures var (r, made) := ReadSpec(read, size);
      if size < 0 || size > 67108864 then r == AnnouncedTooLarge && made == []
      else
        && made != [] && made[0] == Request(0, 262144)
        && (forall i :: 0 < i < |made| ==> Follows(made[i - 1], read(made[..i]), made[i], size))
        && Decides(made[|made| - 1], read(made), size, r)
  {
    ReadSpecMeansTranscript(read, size);
    if 0 <= size <= 67108864 {
      var (r, made) := ReadSpec(read, size);
      ReadAt(read, size, made, 0);
      assert made[..0] == [];
      forall i | 0 < i < |made|
        ensures Follows(made[i - 1], read(made[..i]), made[i], size)
      {
        StepFollows(read, size, made, i);
      }
      LastDecides(read, size, made);
    }
  }

  lemma StepFollows(read: Reader, size: nat, made: seq<Request>, i: nat)
    requires Transcript(read, size, made) && 0 < i < |made|
    ensures Follows(made[i - 1], read(made[..i]), made[i], size)
  {
    ReadAt(read, size, made, i - 1);
    ReadAt(read, size, made, i);
    WentOn(read, size, made, i);
    assert made[..i][|made[..i]| - 1] == made[i - 1];
  }

  lemma LastDecides(read: Reader, size: nat, made: seq<Request>)
    requires made != [] && Transcript(read, size, made) && !GoesOn(read, size, made)
    ensures Decides(made[|made| - 1], read(made), size, Verdict(read, size, made))
  {
    var n := |made| - 1;
    ReadAt(read, size, made, n);
    assert made[..n + 1] == made;
  }
}

/** The TTL cache of the test kit: expired entries are removed lazily, inside Get. */
module CacheModel {
  import opened Options

  /** An entry and the time it expires at, if it does. */
  datatype Entry = Entry(value: string, expireAt: Option<int>)

  datatype Op =
    | Set(key: string, value: string, ttl: int)
    | Get(key: string)
    | Delete(key: string)
    | Advance(step: int)

  datatype State = State(data: map<string, Entry>, now: int)

  predicate Expired(e: Entry, now: int) {
    e.expireAt.Some? && now >= e.expireAt.value
  }

  /** One operation, with what it returns; only Get returns something. */
  function Step(s: State, op: Op): (State, Option<string>) {
    match op
    case Set(key, value, ttl) =>
      (s.(data := s.data[key := Entry(value, if ttl > 0 then Some(s.now + ttl) else None)]), None)
    case Get(key) =>
      if key !in s.data then (s, None)
      else if Expired(s.data[key], s.now) then (s.(data := s.data - {key}), None)
      else (s, Some(s.data[key].value))
    case Delete(key) => (s.(data := s.data - {key}), None)
    case Advance(step) => (s.(now := s.now + step), None)
  }

  function Run(start: int, ops: seq<Op>): State {
    if ops == [] then State(map[], start) else Step(Run(start, ops[..|ops| - 1]), ops[|ops| - 1]).0
  }

  /** What a Get returns after a run. */
  function GetAfter(start: int, ops: seq<Op>, key: string): Option<string> {
    Step(Run(start, ops), Get(key)).1
  }

  // The history specification: no stored entries and no eviction, only what was asked for and when.

  /** How far the clock has moved during a run. */
  function Elapsed(ops: seq<Op>): int {
    if ops == [] then 0
    else Elapsed(ops[..|ops| - 1]) + if ops[|ops| - 1].Advance? then ops[|ops| - 1].step else 0
  }

  /** The last operation that set or deleted this key. */
  function LastWrite(ops: seq<Op>, key: string): (i: int)
    ensures -1 <= i < |ops|
    ensures i >= 0 ==> (ops[i].Set? || ops[i].Delete?) && ops[i].key == key
    ensures forall j :: i < j < |ops| ==> !((ops[j].Set? || ops[j].Delete?) && ops[j].key == key)
  {
    if ops == [] then -1
    else
      var last := ops[|ops| - 1];
      if (last.Set? || last.Delete?) && last.key == key then |ops| - 1 else LastWrite(ops[..|ops| - 1], key)
  }

  /** A hit is the value of the last Set, if nothing deleted it and its ttl was non-positive or has not elapsed. */
  function Lookup(ops: seq<Op>, key: string): Option<string> {
    var i := LastWrite(ops, key);
    if i >= 0 && ops[i].Set? && (ops[i].ttl <= 0 || Elapsed(ops) - Elapsed(ops[..i]) < ops[i].ttl) then Some(ops[i].value)
    else None
  }

  ghost predicate TimeMovesForward(ops: seq<Op>) {
    forall i :: 0 <= i < |ops| && ops[i].Advance? ==> ops[i].step >= 0
  }

  lemma {:induction false} ClockOf(start: int, ops: seq<Op>)
    ensures Run(start, ops).now == start + Elapsed(ops)
  {
    if ops != [] {
      ClockOf(start, ops[..|ops| - 1]);
    }
  }

  /** The entry the last write of a key calls for, had it been kept. */
  function Wanted(start: int, ops: seq<Op>, key: string): Option<Entry> {
    var i := LastWrite(ops, key);
    if i < 0 || ops[i].Delete? then None
    else Some(Entry(ops[i].value, if ops[i].ttl > 0 then Some(start + Elapsed(ops[..i]) + ops[i].ttl) else None))
  }

  /** A hit is a wanted entry that has not expired. */
  lemma LookupIsWanted(start: int, ops: seq<Op>, key: string)
    ensures var w := Wanted(start, ops, key);
      Lookup(ops, key) == if w.Some? && !Expired(w.value, Run(start, ops).now) then Some(w.value.value) else None
  {
    ClockOf(start, ops);
  }

  predicate Writes(op: Op, key: string) {
    (op.Set? || op.Delete?) && op.key == key
  }

  /** Since the last write of the key, some Get of it found it expired: that Get removed it. */
  ghost predicate Evicted(ops: seq<Op>, key: string) {
    exists g :: LastWrite(ops, key) < g < |ops| && ops[g] == Get(key) && Lookup(ops[..g], key) == None
  }

  lemma EvictedUnlessWritten(ops: seq<Op>, key: string)
    requires ops != [] && !Writes(ops[|ops| - 1], key)
    ensures var n := |ops| - 1;
      Evicted(ops, key) <==> Evicted(ops[..n], key) || (ops[n] == Get(key) && Lookup(ops[..n], key) == None)
  {
    var n := |ops| - 1;
    assert forall g :: 0 <= g <= n ==> ops[..n][..g] == ops[..g];
    if Evicted(ops[..n], key) {
      var g :| LastWrite(ops[..n], key) < g < n && ops[..n][g] == Get(key) && Lookup(ops[..n][..g], key) == None;
      assert ops[g] == Get(key) && Lookup(ops[..g], key) == None;
    }
    if Evicted(ops, key) {
      var g :| LastWrite(ops, key) < g < |ops| && ops[g] == Get(key) && Lookup(ops[..g], key) == None;
      assert g < n ==> ops[..n][g] == Get(key) && Lookup(ops[..n][..g], key) == None;
    }
  }

  lemma WantedUnlessWritten(start: int, ops: seq<Op>, key: string)
    requires ops != [] && !Writes(ops[|ops| - 1], key)
    ensures Wanted(start, ops, key) == Wanted(start, ops[..|ops| - 1], key)
  {
    var i := LastWrite(ops, key);
    if i >= 0 {
      assert ops[..|ops| - 1][..i] == ops[..i];
    }
  }

  /** What is stored for a key: what the last write calls for, or nothing once a Get has evicted that. */
  ghost predicate StoredAsWanted(start: int, ops: seq<Op>, key: string) {
    var s, w := Run(start, ops), Wanted(start, ops, key);
    if key in s.data then w == Some(s.data[key]) && !Evicted(ops, key) else w.None? || Evicted(ops, key)
  }

  lemma {:induction false} StoredIsWanted(start: int, ops: seq<Op>, key: string)
    ensures StoredAsWanted(start, ops, key)
  {
    if ops != [] {
      var n := |ops| - 1;
      StoredIsWanted(start, ops[..n], key);
      if Writes(ops[n], key) {
        ClockOf(start, ops[..n]);
      } else {
        WantedUnlessWritten(start, ops, key);
        EvictedUnlessWritten(ops, key);
        LookupIsWanted(start, ops[..n], key);
      }
    }
  }

  /** What a Get answers after any run, whichever way the clock was moved. */
  lemma GetIsLookupUnlessEvicted(start: int, ops: seq<Op>, key: string)
    ensures GetAfter(start, ops, key) == if Evicted(ops, key) then None else Lookup(ops, key)
  {
    StoredIsWanted(start, ops, key);
    LookupIsWanted(start, ops, key);
  }

  /**
   Eviction shows exactly when an entry that was evicted counts as alive again: the clock has been moved
   back to before it expires.
   */
  lemma EvictionIsVisibleIff(start: int, ops: seq<Op>, key: string)
    ensures GetAfter(start, ops, key) != Lookup(ops, key) <==> Lookup(ops, key).Some? && Evicted(ops, key)
  {
    GetIsLookupUnlessEvicted(start, ops, key);
  }

  lemma {:induction false} ElapsedGrows(ops: seq<Op>, i: nat)
    requires TimeMovesForward(ops) && i <= |ops|
    ensures Elapsed(ops[..i]) <= Elapsed(ops)
  {
    if i == |ops| {
      assert ops[..i] == ops;
    } else {
      assert ops[..|ops| - 1][..i] == ops[..i];
      ElapsedGrows(ops[..|ops| - 1], i);
    }
  }

  lemma LastWriteOfPrefix(ops: seq<Op>, key: string, g: nat)
    requires LastWrite(ops, key) < g <= |ops|
    ensures LastWrite(ops[..g], key) == LastWrite(ops, key)
  {
  }

  /** As long as the clock is never moved backwards, after every run every Get answers what the history says. */
  lemma CacheRefinesHistory(start: int, ops: seq<Op>, key: string)
    requires TimeMovesForward(ops)
    ensures GetAfter(start, ops, key) == Lookup(ops, key)
  {
    EvictionIsVisibleIff(start, ops, key);
    if Lookup(ops, key).Some? && Evicted(ops, key) {
      var g :| LastWrite(ops, key) < g < |ops| && ops[g] == Get(key) && Lookup(ops[..g], key) == None;
      var i := LastWrite(ops, key);
      LastWriteOfPrefix(ops, key, g);
      assert ops[..g][..i] == ops[..i];
      ElapsedGrows(ops, g);
      assert false;
    }
  }

  /** A run in which it shows, for any backward move. */
  lemma BackwardsShowsEviction(start: int, step: int, key: string)
    requires step < 0
    ensures var ops := [Set(key, "v", 1), Advance(1), Get(key), Advance(step)];
      GetAfter(start, ops, key) == None && Lookup(ops, key) == Some("v")
  {
    var ops := [Set(key, "v", 1), Advance(1), Get(key), Advance(step)];
    var a, b, c := ops[..1], ops[..2], ops[..3];
    assert a[..0] == [] && b[..1] == a && c[..2] == b && ops[..3] == c && ops[..0] == [] && b[..0] == [];
    assert LastWrite(a, key) == 0 && LastWrite(b, key) == 0 && LastWrite(c, key) == 0;
    assert Elapsed(a) == 0 && Elapsed(b) == 1 && Elapsed(c) == 1;
    assert ops[2] == Get(key) && Lookup(b, key) == None;
    EvictionIsVisibleIff(start, ops, key);
    GetIsLookupUnlessEvicted(start, ops, key);
  }

  /**
   In numbers: a value is there while less than its time to live has passed, for ever when that is not
   positive, and other keys are not touched; a deleted one is gone.
   */
  lemma TtlInNumbers(start: int, ops: seq<Op>, key: string, value: string, ttl: int, d: int, other: string)
    requires other != key
    ensures var stored := ops + [Set(key, value, ttl)];
      && GetAfter(start, stored + [Advance(d)], key) == (if ttl <= 0 || d < ttl then Some(value) else None)
      && GetAfter(start, stored, other) == GetAfter(start, ops, other)
    ensures GetAfter(start, ops + [Delete(key)], key) == None
    ensures GetAfter(start, ops + [Delete(key)], other) == GetAfter(start, ops, other)
  {
    RunOneMore(start, ops, Set(key, value, ttl));
    RunOneMore(start, ops + [Set(key, value, ttl)], Advance(d));
    RunOneMore(start, ops, Delete(key));
  }

  lemma RunOneMore(start: int, ops: seq<Op>, op: Op)
    ensures Run(start, ops + [op]) == Step(Run(start, ops), op).0
  {
    assert (ops + [op])[..|ops|] == ops;
  }

  class InMemoryCache {
    var data: map<string, Entry>
    var clock: int
    ghost var start: int
    ghost var history: seq<Op>

    ghost predicate Valid()
      reads this
    {
      State(data, clock) == Run(start, history)
    }

    constructor (clock: int)
      ensures Valid() && history == []
    {
      data, this.clock, start, history := map[], clock, clock, [];
    }

    ghost method Record(op: Op)
      requires State(data, clock) == Step(Run(start, history), op).0
      modifies this`history
      ensures Valid() && history == old(history) + [op]
    {
      history := history + [op];
      assert history[..|history| - 1] == old(history);
    }

    /**
     The value comes back exactly when the history says so; only a clock that was moved backwards can show
     that it was evicted on the way.
     */
    method Get(key: string) returns (r: Option<string>)
      requires Valid()
      modifies this
      ensures Valid() && history == old(history) + [Op.Get(key)] && start == old(start)
      ensures r == if Evicted(old(history), key) then None else Lookup(old(history), key)
      ensures TimeMovesForward(old(history)) ==> r == Lookup(old(history), key)
    {
      GetIsLookupUnlessEvicted(start, history, key);
      if TimeMovesForward(history) {
        CacheRefinesHistory(start, history, key);
      }
      if key !in data {
        Record(Op.Get(key));
        return None;
      }
      if Expired(data[key], clock) {
        data := data - {key};
        Record(Op.Get(key));
        return None;
      }
      Record(Op.Get(key));
      return Some(data[key].value);
    }

    method Set(key: string, value: string, ttl: int)
      requires Valid()
      modifies this
      ensures Valid() && history == old(history) + [Op.Set(key, value, ttl)] && start == old(start)
    {
      var expireAt := None;
      if ttl > 0 {
        expireAt := Some(clock + ttl);
      }
      data := data[key := Entry(value, expireAt)];
      Record(Op.Set(key, value, ttl));
    }

    method Delete(key: string)
      requires Valid()
      modifies this
      ensures Valid() && history == old(history) + [Op.Delete(key)] && start == old(start)
    {
      data := data - {key};
      Record(Op.Delete(key));
    }

    /** Either way. The fake clock stands still between Advances; time passing on the real clock is an Advance too. */
    method Advance(step: int)
      requires Valid()
      modifies this
      ensures Valid() && history == old(history) + [Op.Advance(step)] && start == old(start)
    {
      clock := clock + step;
      Record(Op.Advance(step));
    }
  }
}

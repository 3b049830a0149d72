/**
 * The in-memory replay cache: records are dropped lazily, once the earliest deadline has passed.
 * It answers timed inserts as a log that never forgets would.
 */
module MemoryCache {
  import opened Bytes

  /** Deadlines by key; 0 marks a permanent record. */
  type Records = map<Octets, uint64>

  datatype Cache = Cache(seen: Records, minDeadline: uint64)

  const EMPTY := Cache(map[], MAX_U64)

  datatype Answer = Answer(cache: Cache, inserted: bool, ok: bool)

  /** The exact minimum of the timed deadlines, or the maximum when there are none. */
  ghost predicate IsMinimum(low: uint64, seen: Records) {
    && (forall k :: k in seen && seen[k] != 0 ==> low <= seen[k])
    && (low == MAX_U64 || exists k :: k in seen && seen[k] == low && low != 0)
  }

  ghost predicate Valid(c: Cache) {
    IsMinimum(c.minDeadline, c.seen)
  }

  function Unexpired(seen: Records, now: nat): Records {
    map k | k in seen && (seen[k] == 0 || seen[k] > now) :: seen[k]
  }

  lemma {:induction false} MinimumExists(seen: Records)
    ensures exists low: uint64 :: IsMinimum(low, seen)
    decreases |seen|
  {
    if seen == map[] {
      assert IsMinimum(MAX_U64, seen);
    } else {
      var k :| k in seen;
      var rest := seen - {k};
      assert rest.Keys == seen.Keys - {k};
      MinimumExists(rest);
      var low: uint64 :| IsMinimum(low, rest);
      assert forall x :: x in seen ==> x == k || (x in rest && rest[x] == seen[x]);
      if seen[k] != 0 && seen[k] < low {
        assert IsMinimum(seen[k], seen);
      } else {
        assert IsMinimum(low, seen);
      }
    }
  }

  ghost function Minimum(seen: Records): (low: uint64)
    ensures IsMinimum(low, seen)
  {
    MinimumExists(seen);
    var low: uint64 :| IsMinimum(low, seen);
    low
  }

  ghost function Sweep(c: Cache, now: nat): Cache {
    if c.minDeadline <= now then Cache(Unexpired(c.seen, now), Minimum(Unexpired(c.seen, now))) else c
  }

  ghost function InsertUntil(c: Cache, key: Octets, deadline: uint64, now: uint64): Answer {
    if deadline == 0 || now == 0 || deadline <= now then Answer(c, false, false)
    else
      var s := Sweep(c, now);
      if key in s.seen && (s.seen[key] == 0 || s.seen[key] > now) then Answer(s, false, true)
      else Answer(Cache(s.seen[key := deadline], Min(s.minDeadline, deadline)), true, true)
  }

  function Insert(c: Cache, key: Octets): Answer {
    if key in c.seen then Answer(c, false, true) else Answer(c.(seen := c.seen[key := 0]), true, true)
  }

  // ---------- the lazy sweep ----------

  lemma SweepIsValid(c: Cache, now: nat)
    requires Valid(c)
    ensures Valid(Sweep(c, now))
    ensures Sweep(c, now).seen == Unexpired(c.seen, now)
  {
    if c.minDeadline > now {
      assert Unexpired(c.seen, now) == c.seen;
    }
  }

  /** After the sweep no resident record has expired, so the branch that deletes one key is never taken. */
  lemma DeleteBranchUnreachable(c: Cache, key: Octets, now: nat)
    requires Valid(c) && key in Sweep(c, now).seen
    ensures Sweep(c, now).seen[key] == 0 || Sweep(c, now).seen[key] > now
  {
    SweepIsValid(c, now);
  }

  lemma MinimumGrows(seen: Records, low: uint64, key: Octets, deadline: uint64)
    requires IsMinimum(low, seen) && key !in seen && deadline > 0
    ensures IsMinimum(Min(low, deadline), seen[key := deadline])
  {
    var next := seen[key := deadline];
    assert key in next && next[key] == deadline;
    if low <= deadline && low != MAX_U64 {
      var k :| k in seen && seen[k] == low && low != 0;
      assert k in next && next[k] == low;
    }
  }

  /** Every operation keeps `minDeadline` the exact minimum. */
  lemma InsertUntilIsValid(c: Cache, key: Octets, deadline: uint64, now: uint64)
    requires Valid(c)
    ensures Valid(InsertUntil(c, key, deadline, now).cache)
  {
    if !(deadline == 0 || now == 0 || deadline <= now) {
      SweepIsValid(c, now);
      var s := Sweep(c, now);
      if key !in s.seen {
        MinimumGrows(s.seen, s.minDeadline, key, deadline);
      }
    }
  }

  lemma InsertIsValid(c: Cache, key: Octets)
    requires Valid(c)
    ensures Valid(Insert(c, key).cache)
  {
    var next := Insert(c, key).cache.seen;
    if c.minDeadline != MAX_U64 {
      var k :| k in c.seen && c.seen[k] == c.minDeadline && c.minDeadline != 0;
      assert k in next && next[k] == c.minDeadline;
    }
  }

  // ---------- the log that never forgets ----------

  datatype Event = Timed(key: Octets, deadline: uint64, now: uint64) | Permanent(key: Octets)

  /** The cache, the latest accepted record of every key ever, and the latest time seen. */
  datatype State = State(cache: Cache, log: Records, clock: nat)

  const START := State(EMPTY, map[], 0)

  predicate Enabled(s: State, e: Event) {
    e.Timed? ==> s.clock <= e.now
  }

  ghost function Respond(c: Cache, e: Event): Answer {
    match e
    case Timed(key, deadline, now) => InsertUntil(c, key, deadline, now)
    case Permanent(key) => Insert(c, key)
  }

  ghost function Execute(s: State, e: Event): State {
    var a := Respond(s.cache, e);
    State(a.cache,
          if a.inserted then s.log[e.key := if e.Timed? then e.deadline else 0] else s.log,
          if e.Timed? then e.now else s.clock)
  }

  /** What the log would answer: refuse while a record of the key is permanent or unexpired. */
  predicate LogAdmits(log: Records, key: Octets, now: nat) {
    key in log ==> log[key] != 0 && log[key] <= now
  }

  ghost predicate Inv(s: State) {
    && Valid(s.cache)
    && (forall k :: k in s.cache.seen ==> k in s.log && s.log[k] == s.cache.seen[k])
    && (forall k :: k in s.log && (s.log[k] == 0 || s.log[k] > s.clock) ==> k in s.cache.seen)
  }

  lemma StepKeepsInv(s: State, e: Event)
    requires Inv(s) && Enabled(s, e)
    ensures Inv(Execute(s, e))
    ensures e.Timed? && e.deadline > e.now > 0 ==>
              Respond(s.cache, e).ok && Respond(s.cache, e).inserted == LogAdmits(s.log, e.key, e.now)
  {
    if e.Timed? {
      SweepIsValid(s.cache, e.now);
      InsertUntilIsValid(s.cache, e.key, e.deadline, e.now);
    } else {
      InsertIsValid(s.cache, e.key);
    }
  }

  ghost predicate ValidRun(s: State, events: seq<Event>)
    decreases |events|
  {
    events == [] || (Enabled(s, events[0]) && ValidRun(Execute(s, events[0]), events[1..]))
  }

  ghost function StateAfter(s: State, events: seq<Event>): State
    decreases |events|
  {
    if events == [] then s else StateAfter(Execute(s, events[0]), events[1..])
  }

  lemma {:induction false} RunKeepsInv(s: State, events: seq<Event>)
    requires Inv(s) && ValidRun(s, events)
    ensures Inv(StateAfter(s, events))
    decreases |events|
  {
    if events != [] {
      StepKeepsInv(s, events[0]);
      RunKeepsInv(Execute(s, events[0]), events[1..]);
    }
  }

  /**
   * After any mix of timed and permanent inserts under a clock that does not go back, a timed
   * insert is answered exactly as the log that never forgets answers it.
   */
  lemma AnswersLikeTheLog(events: seq<Event>, e: Event)
    requires ValidRun(START, events) && e.Timed? && Enabled(StateAfter(START, events), e)
    requires e.deadline > e.now > 0
    ensures var s := StateAfter(START, events);
            Respond(s.cache, e).ok && Respond(s.cache, e).inserted == LogAdmits(s.log, e.key, e.now)
  {
    RunKeepsInv(START, events);
    StepKeepsInv(StateAfter(START, events), e);
  }

  // ---------- the object ----------

  class MemoryReplayCache {
    var seen: Records
    var minDeadline: uint64

    ghost function View(): Cache
      reads this
    {
      Cache(seen, minDeadline)
    }

    constructor ()
      ensures View() == EMPTY
    {
      seen, minDeadline := map[], MAX_U64;
    }

    method ExpireLocked(now: uint64)
      modifies this
      ensures seen == Unexpired(old(seen), now) && minDeadline == Minimum(seen)
    {
      var earliest: uint64 := MAX_U64;
      var kept: Records := map[];
      var pending := seen;
      while pending != map[]
        invariant pending.Keys <= seen.Keys && kept.Keys !! pending.Keys
        invariant seen == old(seen)
        invariant forall k :: k in pending ==> pending[k] == seen[k]
        invariant forall k :: k in kept ==> k in seen && kept[k] == seen[k] && (seen[k] == 0 || seen[k] > now)
        invariant forall k :: k in seen && (seen[k] == 0 || seen[k] > now) ==> k in kept || k in pending
        invariant IsMinimum(earliest, kept)
        decreases |pending|
      {
        var key :| key in pending;
        var deadline := pending[key];
        var rest := pending - {key};
        assert rest.Keys == pending.Keys - {key};
        pending := rest;
        if deadline == 0 {
          InsertIsValid(Cache(kept, earliest), key);
          kept := kept[key := 0];
        } else if deadline > now {
          MinimumGrows(kept, earliest, key, deadline);
          kept := kept[key := deadline];
          earliest := Min(earliest, deadline);
        }
      }
      assert kept == Unexpired(seen, now);
      seen, minDeadline := kept, earliest;
    }

    method InsertIfAbsentUntil(key: Octets, deadline: uint64, now: uint64) returns (inserted: bool, ok: bool)
      modifies this
      ensures var a := InsertUntil(old(View()), key, deadline, now);
              View() == a.cache && inserted == a.inserted && ok == a.ok
    {
      if deadline == 0 || now == 0 || deadline <= now {
        return false, false;
      }
      if minDeadline <= now {
        ExpireLocked(now);
      }
      if key in seen {
        if seen[key] == 0 || seen[key] > now {
          return false, true;
        }
        seen := seen - {key};
      }
      seen := seen[key := deadline];
      if deadline < minDeadline {
        minDeadline := deadline;
      }
      return true, true;
    }

    method InsertIfAbsent(key: Octets) returns (inserted: bool)
      modifies this`seen
      ensures View() == Insert(old(View()), key).cache && inserted == Insert(old(View()), key).inserted
    {
      if key in seen {
        return false;
      }
      seen := seen[key := 0];
      return true;
    }
  }
}

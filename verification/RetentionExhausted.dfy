/**
 * The exact condition under which an acknowledged key stays spent through every crash. What remains beside
 * RetentionDurability is a directory whose generation counter is used up: it can no longer be compacted, so that a file
 * which needs mending cannot be opened.
 */
module RetentionExhausted {
  import opened Bytes
  import opened RetentionRecord
  import opened RetentionLog
  import opened RetentionMachine
  import opened RetentionSafety
  import opened RetentionRevert
  import opened RetentionDurability

  /** The generation is the last one, and no crash brings back an earlier one. */
  predicate Exhausted(d: Directory) {
    ReadGeneration(d.generation) == Some(MAX_U64) && d.past == {}
  }

  /** The file can be opened without mending it. */
  predicate Opens(data: Octets, now: nat) {
    WellFormed(data) && Tail(data) == [] && Read(data, NOTHING).minDeadline > now
  }

  predicate Spent(data: Octets, k: Octets, deadline: nat) {
    WellFormed(data) && k in Records(data) && Records(data)[k] >= deadline
  }

  /** A crash can leave the file in a form that opens as it is and does not retain the key for long enough. */
  ghost predicate Recoverable(f: File, k: Octets, deadline: nat, now: nat) {
    exists n :: f.synced <= n <= |f.data| && Opens(f.data[..n], now) && !Spent(f.data[..n], k, deadline)
  }

  lemma StaysUnrecoverable(f: File, k: Octets, deadline: nat, clock: nat, now: nat)
    requires !Recoverable(f, k, deadline, clock) && clock <= now
    ensures !Recoverable(f, k, deadline, now)
  {
    forall n | f.synced <= n <= |f.data| && Opens(f.data[..n], now) ensures Spent(f.data[..n], k, deadline) {
      assert Opens(f.data[..n], clock);
    }
  }

  // ---------- steps in an exhausted directory ----------

  lemma LoadedGeneration(h: Handle, d: Directory, now: nat, io: Outcome)
    requires Exhausted(d)
    ensures Scan(h, d, now, io).Loaded? ==> Scan(h, d, now, io).handle.loadedGeneration == MAX_U64
  {
  }

  lemma FinishExhausted(l: Loading, d: Directory, key: Octets, deadline: uint64, io: Outcome)
    requires l.Loaded? ==> l.handle.loadedGeneration == MAX_U64
    ensures var n := Finish(l, d, key, deadline, io).dir;
            n.generation == d.generation && n.past == d.past && n.stale == d.stale
  {
  }

  lemma MendExhausted(l: Loading, d: Directory, io: Outcome)
    requires l.Loaded? ==> l.handle.loadedGeneration == MAX_U64
    ensures var w := Mend(l, d, io); w.dir == d || w.dir == d.(past := {}, stale := None)
    ensures l.LoadFailed? || l.expired || l.torn ==> !Mend(l, d, io).ok && Mend(l, d, io).dir == d
  {
  }

  lemma InsertExhausted(h: Handle, d: Directory, key: Octets, deadline: uint64, now: uint64, io: Outcome)
    requires Exhausted(d)
    ensures var n := Insert(h, d, key, deadline, now, io).dir; Exhausted(n) && n.stale == d.stale
  {
    LoadedGeneration(h, d, now, io);
    FinishExhausted(Scan(h, d, now, io), d, key, deadline, io);
  }

  lemma OpenExhausted(d: Directory, now: uint64, io: Outcome)
    requires Exhausted(d)
    ensures var n := Open(d, now, io).dir; Exhausted(n) && (n.stale == d.stale || n.stale.None?)
  {
    LoadedGeneration(FRESH, d, now, io);
    MendExhausted(Scan(FRESH, d, now, io), d, io);
  }

  /** What a fresh load finds to mend. */
  lemma FreshLoadMends(d: Directory, now: nat)
    requires Load(FRESH, d, now).Loaded?
    ensures var l := Load(FRESH, d, now); l.expired || l.torn <==> !Opens(d.file.data, now)
    ensures WellFormed(d.file.data)
  {
    assert d.file.data[0..] == d.file.data;
  }

  lemma UnopenableStays(d: Directory, now: uint64, io: Outcome)
    requires Exhausted(d) && !Opens(d.file.data, now)
    ensures !Open(d, now, io).ok && Open(d, now, io).dir == d
  {
    LoadedGeneration(FRESH, d, now, io);
    if Load(FRESH, d, now).Loaded? {
      FreshLoadMends(d, now);
    }
    MendExhausted(Scan(FRESH, d, now, io), d, io);
  }

  // ---------- what keeps the key spent ----------

  /** The key is in the current file, and the file behind it cannot be recovered without it. */
  ghost predicate Held(s: State, k: Octets, deadline: uint64) {
    && DirectoryInv(s) && FileOk(s.dir.file, map[k := deadline], s.clock)
    && (s.dir.stale.Some? ==> !Recoverable(s.dir.stale.value, k, deadline, s.clock))
  }

  /** No handle is open and none can be opened. */
  ghost predicate Dead(s: State) {
    && s.handles == map[] && s.failed == map[] && s.dir.stale.None? && s.dir.file.synced == |s.dir.file.data|
    && !Opens(s.dir.file.data, s.clock)
  }

  ghost predicate Shut(s: State, k: Octets, deadline: uint64) {
    Exhausted(s.dir) && (Held(s, k, deadline) || Dead(s))
  }

  lemma InsertStaysHeld(s: State, e: Event, k: Octets, deadline: uint64)
    requires Exhausted(s.dir) && Held(s, k, deadline) && e.InsertKey? && Enabled(s, e)
    ensures Exhausted(Execute(s, e).dir) && Held(Execute(s, e), k, deadline)
  {
    StepKeepsDirectory(s, e);
    InsertKeepsFile(s.handles[e.id], s.dir, s.failed[e.id], s.clock, e.key, e.deadline, e.now, e.io,
                    map[k := deadline]);
    InsertExhausted(s.handles[e.id], s.dir, e.key, e.deadline, e.now, e.io);
    if s.dir.stale.Some? {
      StaysUnrecoverable(s.dir.stale.value, k, deadline, s.clock, e.now);
    }
  }

  lemma OpenStaysHeld(s: State, e: Event, k: Octets, deadline: uint64)
    requires Exhausted(s.dir) && Held(s, k, deadline) && e.OpenHandle? && Enabled(s, e)
    ensures Exhausted(Execute(s, e).dir) && Held(Execute(s, e), k, deadline)
  {
    StepKeepsDirectory(s, e);
    FileTimePasses(s.dir.file, map[k := deadline], s.clock, e.now);
    OpenKeepsOwn(s.dir, e.now, e.io, map[k := deadline]);
    OpenExhausted(s.dir, e.now, e.io);
    if s.dir.stale.Some? {
      StaysUnrecoverable(s.dir.stale.value, k, deadline, s.clock, e.now);
    }
  }

  /** A crash brings back a piece of the older file: it retains the key, or it cannot be opened. */
  lemma RevertStaysShut(s: State, e: Event, k: Octets, deadline: uint64)
    requires Exhausted(s.dir) && Held(s, k, deadline) && e.RevertingCrash? && Enabled(s, e)
    ensures Shut(Execute(s, e), k, deadline)
  {
    StepKeepsDirectory(s, e);
    var f := s.dir.stale.value;
    assert !Recoverable(f, k, deadline, s.clock);
    if Spent(f.data[..e.length], k, deadline) {
      SpentIsKept(Cut(f, e.length), k, deadline, s.clock);
    } else {
      assert !Opens(f.data[..e.length], s.clock);
    }
  }

  lemma SpentIsKept(f: File, k: Octets, deadline: uint64, clock: nat)
    requires f.synced == |f.data| && Spent(f.data, k, deadline)
    ensures FileOk(f, map[k := deadline], clock)
  {
    forall n | f.synced <= n <= |f.data| ensures Keeps(f.data[..n], map[k := deadline], clock) {
      assert f.data[..n] == f.data;
    }
  }

  lemma HeldStaysShut(s: State, e: Event, k: Octets, deadline: uint64)
    requires Exhausted(s.dir) && Held(s, k, deadline) && Enabled(s, e)
    ensures Shut(Execute(s, e), k, deadline)
  {
    match e
    case OpenHandle(_, _, _) => OpenStaysHeld(s, e, k, deadline);
    case InsertKey(_, _, _, _, _) => InsertStaysHeld(s, e, k, deadline);
    case CloseHandle(_) => StepKeepsDirectory(s, e);
    case Crash(length, _) =>
      StepKeepsDirectory(s, e);
      CutKeeps(s.dir.file, length, map[k := deadline], s.clock);
    case RevertingCrash(_, _) => RevertStaysShut(s, e, k, deadline);
  }

  lemma DeadStaysDead(s: State, e: Event)
    requires Exhausted(s.dir) && Dead(s) && Enabled(s, e)
    ensures Exhausted(Execute(s, e).dir) && Dead(Execute(s, e))
  {
    if e.OpenHandle? {
      assert !Opens(s.dir.file.data, e.now);
      UnopenableStays(s.dir, e.now, e.io);
    } else if e.Crash? {
      assert s.dir.file.data[..e.length] == s.dir.file.data;
    }
  }

  lemma {:induction false} RunStaysShut(s: State, events: seq<Event>, k: Octets, deadline: uint64)
    requires Shut(s, k, deadline) && ValidRun(s, events)
    ensures Shut(StateAfter(s, events), k, deadline)
    decreases |events|
  {
    if events != [] {
      if Dead(s) {
        DeadStaysDead(s, events[0]);
      } else {
        HeldStaysShut(s, events[0], k, deadline);
      }
      RunStaysShut(Execute(s, events[0]), events[1..], k, deadline);
    }
  }

  lemma ShutNeverReadmits(t: State, events: seq<Event>, e: Event, k: Octets, deadline: uint64)
    requires Shut(t, k, deadline)
    ensures !Readmits(t, events, e, k, deadline)
  {
    if ValidRun(t, events) {
      RunStaysShut(t, events, k, deadline);
      var u := StateAfter(t, events);
      if e.InsertKey? && Enabled(u, e) {
        InsertKeepsOwn(u.handles[e.id], u.dir, u.failed[e.id], u.clock, e.key, e.deadline, e.now, e.io,
                       map[k := deadline]);
      }
    }
  }

  // ---------- what lets it be admitted again ----------

  /** A handle that holds all of a file that opens as it is. */
  ghost predicate Settled(h: Handle, d: Directory, now: nat) {
    Current(h, d) && h.loadedSize == |d.file.data| && h.minDeadline > now
  }

  /** The handle that a fresh load makes of such a file. */
  function WholeHandle(d: Directory): Handle
    requires ReadGeneration(d.generation).Some?
  {
    var r := Read(d.file.data, NOTHING);
    Handle(r.seen, r.minDeadline, Some(d.file.inode), |d.file.data|, ReadGeneration(d.generation).value)
  }

  lemma FreshCalm(d: Directory, now: nat)
    requires Opens(d.file.data, now) && ReadGeneration(d.generation).Some?
    ensures Load(FRESH, d, now) == Loaded(WholeHandle(d), false, false)
  {
    assert d.file.data[0..] == d.file.data;
  }

  lemma OpensCalmly(d: Directory, now: uint64)
    requires Opens(d.file.data, now) && ReadGeneration(d.generation).Some? && now > 0
    ensures Open(d, now, HEALTHY) == Written(WholeHandle(d), d.(past := {}, stale := None), true)
  {
    FreshCalm(d, now);
  }

  lemma WholeIsSettled(d: Directory, n: Directory, now: uint64)
    requires Opens(d.file.data, now) && ReadGeneration(d.generation).Some? && n == d.(past := {}, stale := None)
    ensures var h := WholeHandle(d);
            Settled(h, n, now) && h.seen == Records(d.file.data) && LowerBound(h.minDeadline, h.seen)
  {
    ReadKeepsLowerBound(d.file.data, NOTHING);
  }

  lemma SettledAdmits(h: Handle, d: Directory, k: Octets, deadline: uint64, now: uint64)
    requires Settled(h, d, now) && k !in h.seen && Admissible(k, deadline, now)
    ensures Insert(h, d, k, deadline, now, HEALTHY).inserted && Insert(h, d, k, deadline, now, HEALTHY).ok
  {
    LoadAgain(h, d, now);
    CalmInsert(h, d, k, deadline, now);
  }

  /** The crash that leaves the first `n` octets of the older file. */
  lemma CutBack(t: State, n: nat)
    requires t.dir.stale.Some? && t.dir.stale.value.synced <= n <= |t.dir.stale.value.data|
    ensures var f := t.dir.stale.value;
            var crash := RevertingCrash(n, t.dir.generation);
            && Enabled(t, crash)
            && Execute(t, crash) == State(Directory(Cut(f, n), t.dir.generation, {}, None), map[], map[], t.clock,
                                          t.acked)
  {
  }

  /** The piece says nothing of the key: it is admitted at once. */
  lemma UnrecordedReadmits(t: State, n: nat, k: Octets, deadline: uint64, now: uint64)
    requires t.dir.stale.Some? && t.dir.stale.value.synced <= n <= |t.dir.stale.value.data| && t.clock <= now
    requires ReadGeneration(t.dir.generation).Some? && Admissible(k, deadline, now)
    requires Opens(t.dir.stale.value.data[..n], now) && k !in Records(t.dir.stale.value.data[..n])
    ensures ReadmitsAt(t, RevertingCrash(n, t.dir.generation), k, deadline, now)
  {
    CutBack(t, n);
    var crash := RevertingCrash(n, t.dir.generation);
    var c := Execute(t, crash);
    OpensCalmly(c.dir, now);
    var w := Open(c.dir, now, HEALTHY);
    WholeIsSettled(c.dir, w.dir, now);
    SettledAdmits(w.handle, w.dir, k, deadline, now);
    CrashReadmits(t, crash, c, k, deadline, now);
  }

  /** Another key, offered when the record expires: its compaction fails, but the handle has dropped the record. */
  function Nudge(k: Octets, deadline: uint64, now: uint64): Event {
    InsertKey(0, k + [0], deadline, now, HEALTHY)
  }

  lemma LoadDrops(h: Handle, d: Directory, now: nat)
    requires Current(h, d) && h.loadedSize == |d.file.data| && h.minDeadline <= now
    ensures var live := Live(h.seen, now);
            Load(h, d, now) == Loaded(h.(seen := live, minDeadline := Earliest(live)), true, false)
  {
    EmptyReads(d.file.data[h.loadedSize..], Reading(h.seen, h.minDeadline, true));
  }

  lemma EarliestIsLater(m: Seen, now: nat)
    requires now < MAX_U64
    ensures Earliest(Live(m, now)) > now
  {
    var live := Live(m, now);
    var low := Earliest(live);
    assert IsEarliest(low, live);
  }

  lemma NudgeDrops(h: Handle, d: Directory, k: Octets, deadline: uint64, now: uint64)
    requires Exhausted(d) && Current(h, d) && h.loadedSize == |d.file.data| && h.minDeadline <= now
    requires k in h.seen && h.seen[k] <= now && 0 < now < deadline
    ensures var a := Insert(h, d, k + [0], deadline, now, HEALTHY);
            a.dir == d && Settled(a.handle, d, now) && k !in a.handle.seen
  {
    LoadDrops(h, d, now);
    EarliestIsLater(h.seen, now);
    assert |k + [0]| != |k|;
  }

  lemma ThreeSteps(t: State, a: Event, b: Event, c: Event)
    requires Enabled(t, a) && Enabled(Execute(t, a), b) && Enabled(Execute(Execute(t, a), b), c)
    ensures ValidRun(t, [a, b, c]) && StateAfter(t, [a, b, c]) == Execute(Execute(Execute(t, a), b), c)
  {
    assert [a, b, c][1..] == [b, c];
    TwoSteps(Execute(t, a), b, c);
  }

  /** The steps of a handle with number 0 after a crash. */
  lemma NudgedState(c: State, k: Octets, deadline: uint64, now: uint64, later: uint64)
    requires c.handles == map[] && c.failed == map[] && c.clock <= now <= later && Open(c.dir, now, HEALTHY).ok
    ensures Enabled(c, Reopening(now))
    ensures var o := Execute(c, Reopening(now));
            var w := Open(c.dir, now, HEALTHY);
            && Enabled(o, Nudge(k, deadline, later))
            && var u := Execute(o, Nudge(k, deadline, later));
            && var a := Insert(w.handle, w.dir, k + [0], deadline, later, HEALTHY);
            && Enabled(u, Reinserting(k, deadline, later))
            && Inserting(u, Reinserting(k, deadline, later)) == Insert(a.handle, a.dir, k, deadline, later, HEALTHY)
  {
  }

  /** The piece retains the key, but not for long enough: it is admitted again once that record has expired. */
  lemma ExpiredReadmits(t: State, n: nat, k: Octets, deadline: uint64, now: uint64, later: uint64)
    requires t.dir.stale.Some? && t.dir.stale.value.synced <= n <= |t.dir.stale.value.data| && t.clock <= now
    requires Exhausted(t.dir) && Admissible(k, deadline, now)
    requires Opens(t.dir.stale.value.data[..n], now) && k in Records(t.dir.stale.value.data[..n])
    requires later == Records(t.dir.stale.value.data[..n])[k] && later < deadline
    ensures var run := [RevertingCrash(n, t.dir.generation), Reopening(now), Nudge(k, deadline, later)];
            && Readmits(t, run, Reinserting(k, deadline, later), k, deadline)
            && Inserting(StateAfter(t, run), Reinserting(k, deadline, later)).ok
  {
    CutBack(t, n);
    var crash := RevertingCrash(n, t.dir.generation);
    var c := Execute(t, crash);
    OpensCalmly(c.dir, now);
    var w := Open(c.dir, now, HEALTHY);
    WholeIsSettled(c.dir, w.dir, now);
    NudgedState(c, k, deadline, now, later);
    NudgeDrops(w.handle, w.dir, k, deadline, later);
    var a := Insert(w.handle, w.dir, k + [0], deadline, later, HEALTHY);
    SettledAdmits(a.handle, a.dir, k, deadline, later);
    ThreeSteps(t, crash, Reopening(now), Nudge(k, deadline, later));
  }

  lemma RecoverableReadmits(t: State, k: Octets, deadline: uint64, now: uint64)
    requires Exhausted(t.dir) && t.dir.stale.Some? && t.clock <= now && Admissible(k, deadline, now)
    requires Recoverable(t.dir.stale.value, k, deadline, now)
    ensures exists events, e :: Readmits(t, events, e, k, deadline) && Inserting(StateAfter(t, events), e).ok
  {
    var f := t.dir.stale.value;
    var n :| f.synced <= n <= |f.data| && Opens(f.data[..n], now) && !Spent(f.data[..n], k, deadline);
    if k in Records(f.data[..n]) {
      ExpiredReadmits(t, n, k, deadline, now, Records(f.data[..n])[k]);
    } else {
      UnrecordedReadmits(t, n, k, deadline, now);
    }
  }

  // ---------- the exact condition ----------

  lemma UsableExists(d: Directory) returns (generation: Octets)
    requires PastOk(d) && ReadGeneration(d.generation).Some? && !Exhausted(d)
    ensures Usable(d, generation)
  {
    if ReadGeneration(d.generation).value < MAX_U64 {
      generation := d.generation;
    } else {
      generation :| generation in d.past;
    }
  }

  /** The insert leaves no rename that a crash could undo, or none from which the cache could go on without the key. */
  ghost predicate Durable(t: State, k: Octets, deadline: uint64) {
    t.dir.stale.None? || (Exhausted(t.dir) && !Recoverable(t.dir.stale.value, k, deadline, t.clock))
  }

  lemma AcknowledgedIsHeld(s: State, first: Event)
    requires DirectoryInv(s) && Acknowledges(s, first)
    ensures var t := Execute(s, first);
            DirectoryInv(t) && FileOk(t.dir.file, map[first.key := first.deadline], t.clock)
              && ReadGeneration(t.dir.generation).Some?
  {
    StepKeepsDirectory(s, first);
    NothingToKeep(s.dir.file, s.clock);
    InsertKeepsOwn(s.handles[first.id], s.dir, s.failed[first.id], s.clock, first.key, first.deadline, first.now,
                   first.io, map[]);
    var none: Seen := map[];
    assert none[first.key := first.deadline] == map[first.key := first.deadline];
  }

  lemma DurableStays(s: State, first: Event, events: seq<Event>, e: Event)
    requires DirectoryInv(s) && Acknowledges(s, first) && Durable(Execute(s, first), first.key, first.deadline)
    ensures !Readmits(Execute(s, first), events, e, first.key, first.deadline)
  {
    var t := Execute(s, first);
    if t.dir.stale.None? {
      NeverReadmitted(s, first, events, e);
    } else {
      AcknowledgedIsHeld(s, first);
      ShutNeverReadmits(t, events, e, first.key, first.deadline);
    }
  }

  lemma OtherwiseReadmits(s: State, first: Event)
    requires DirectoryInv(s) && Acknowledges(s, first) && !Durable(Execute(s, first), first.key, first.deadline)
    ensures var t := Execute(s, first);
            exists events, e :: Readmits(t, events, e, first.key, first.deadline)
              && Inserting(StateAfter(t, events), e).ok
  {
    var t := Execute(s, first);
    AcknowledgedIsHeld(s, first);
    AckedWindow(s, first);
    if Exhausted(t.dir) {
      RecoverableReadmits(t, first.key, first.deadline, first.now);
    } else {
      var generation := UsableExists(t.dir);
      RevertReadmits(s, first, generation);
    }
  }

  /**
   * The exact condition. After any run from any directory content, crashes that undo renames included: the key of an
   * acknowledged insert is never admitted again before its deadline, whatever happens next, if and only if the insert
   * leaves no rename that a crash could undo, or the directory can go on without the key after no such crash.
   */
  lemma DurableIff(s: State, before: seq<Event>, first: Event)
    requires Initial(s) && ValidRun(s, before) && Acknowledges(StateAfter(s, before), first)
    ensures var t := Execute(StateAfter(s, before), first);
            (forall events, e :: !Readmits(t, events, e, first.key, first.deadline))
              <==> Durable(t, first.key, first.deadline)
    ensures var t := Execute(StateAfter(s, before), first);
            !Durable(t, first.key, first.deadline) ==>
              exists events, e :: Readmits(t, events, e, first.key, first.deadline)
                && Inserting(StateAfter(t, events), e).ok
  {
    ReachableDirectory(s, before);
    var s1 := StateAfter(s, before);
    var t := Execute(s1, first);
    if Durable(t, first.key, first.deadline) {
      forall events, e ensures !Readmits(t, events, e, first.key, first.deadline) {
        DurableStays(s1, first, events, e);
      }
    } else {
      OtherwiseReadmits(s1, first);
    }
  }
}

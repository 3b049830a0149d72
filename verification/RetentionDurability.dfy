/**
 * Exactly which acknowledgements survive every crash, also one that undoes an unsynced rename: those
 * of inserts that leave no such rename behind.
 */
module RetentionDurability {
  import opened Bytes
  import opened RetentionRecord
  import opened RetentionLog
  import opened RetentionMachine
  import opened RetentionSafety
  import opened RetentionRevert

  // ---------- what a step does to the file a crash can bring back ----------

  /** It is left alone, made unreachable by a sync, or replaced by the file that was current. */
  ghost predicate StaleAfter(d: Directory, n: Directory) {
    n.stale == d.stale || n.stale.None? || n.stale == Some(d.file)
  }

  lemma InsertStale(h: Handle, d: Directory, key: Octets, deadline: uint64, now: uint64, io: Outcome)
    ensures StaleAfter(d, Insert(h, d, key, deadline, now, io).dir)
  {
    FinishStale(Load(h, d, now), d, key, deadline, io);
  }

  lemma FinishStale(l: Loading, d: Directory, key: Octets, deadline: uint64, io: Outcome)
    ensures StaleAfter(d, Finish(l, d, key, deadline, io).dir)
  {
  }

  lemma OpenStale(d: Directory, now: uint64, io: Outcome)
    ensures StaleAfter(d, Open(d, now, io).dir)
  {
    MendStale(Load(FRESH, d, now), d, io);
  }

  lemma MendStale(l: Loading, d: Directory, io: Outcome)
    ensures StaleAfter(d, Mend(l, d, io).dir)
  {
  }

  /** The retained records `m`, as far as they are live, are in both files. */
  ghost predicate BothKeep(d: Directory, m: Seen, clock: nat) {
    FileOk(d.file, m, clock) && (d.stale.Some? ==> FileOk(d.stale.value, m, clock))
  }

  /** The current file keeps what the one behind it records. */
  ghost predicate StaleOk(d: Directory, clock: nat) {
    && d.file.synced <= |d.file.data|
    && (d.stale.Some? ==>
          && d.stale.value.synced <= |d.stale.value.data| && WellFormed(d.stale.value.data)
          && FileOk(d.file, Records(d.stale.value.data), clock))
  }

  ghost predicate HandlesOk(s: State) {
    && s.handles.Keys == s.failed.Keys
    && (s.handles != map[] ==> CleanFile(s.dir.file.data))
    && forall id :: id in s.handles ==> HandleOk(s.handles[id], s.dir, s.failed[id], s.clock)
  }

  lemma NothingToKeep(f: File, clock: nat)
    requires f.synced <= |f.data|
    ensures FileOk(f, map[], clock)
  {
  }

  lemma ForgetsOne(f: File, m: Seen, key: Octets, deadline: uint64, clock: nat)
    requires FileOk(f, m[key := deadline], clock) && (key in m ==> m[key] <= clock)
    ensures FileOk(f, m, clock)
  {
    forall n | f.synced <= n <= |f.data| ensures Keeps(f.data[..n], m, clock) {
      assert Keeps(f.data[..n], m[key := deadline], clock);
      forall k | k in m && m[k] > clock
        ensures WellFormed(f.data[..n]) && k in Records(f.data[..n]) && Records(f.data[..n])[k] >= m[k]
      {
        assert m[key := deadline][k] == m[k];
      }
    }
  }

  /** An insert keeps any retained records in the current file. */
  lemma InsertKeepsFile(h: Handle, d: Directory, failed: set<Octets>, clock: nat,
                        key: Octets, deadline: uint64, now: uint64, io: Outcome, m: Seen)
    requires HandleOk(h, d, failed, clock) && CleanFile(d.file.data) && FileOk(d.file, m, clock) && clock <= now
    ensures FileOk(Insert(h, d, key, deadline, now, io).dir.file, m, now)
  {
    InsertKeepsOwn(h, d, failed, clock, key, deadline, now, io, m);
    var a := Insert(h, d, key, deadline, now, io);
    if a.inserted && a.ok {
      ForgetsOne(a.dir.file, m, key, deadline, now);
    }
  }

  // ---------- the handles ----------

  lemma InsertKeepsHandles(s: State, e: Event)
    requires HandlesOk(s) && s.dir.file.synced <= |s.dir.file.data| && e.InsertKey? && Enabled(s, e)
    ensures HandlesOk(Execute(s, e))
  {
    var h, t := s.handles[e.id], Execute(s, e);
    NothingToKeep(s.dir.file, s.clock);
    InsertKeepsOwn(h, s.dir, s.failed[e.id], s.clock, e.key, e.deadline, e.now, e.io, map[]);
    InsertKeepsClean(h, s.dir, s.failed[e.id], s.clock, e.key, e.deadline, e.now, e.io);
    forall id | id in t.handles ensures HandleOk(t.handles[id], t.dir, t.failed[id], t.clock) {
      if id != e.id {
        InsertKeepsOthers(h, s.dir, s.failed[e.id], s.clock, e.key, e.deadline, e.now, e.io, s.handles[id],
                          s.failed[id]);
      }
    }
  }

  lemma OpenKeepsHandles(s: State, e: Event)
    requires HandlesOk(s) && s.dir.file.synced <= |s.dir.file.data| && e.OpenHandle? && Enabled(s, e)
    ensures HandlesOk(Execute(s, e))
  {
    var t := Execute(s, e);
    NothingToKeep(s.dir.file, e.now);
    OpenKeepsOwn(s.dir, e.now, e.io, map[]);
    OpenIsClean(s.dir, e.now, e.io);
    forall id | id in s.handles ensures HandleOk(s.handles[id], t.dir, s.failed[id], e.now) {
      TimePasses(s.handles[id], s.dir, s.failed[id], s.failed[id], s.clock, e.now);
      OpenKeepsOthers(s.dir, e.now, e.io, s.handles[id], s.failed[id]);
    }
  }

  // ---------- the stale file stays behind the current one ----------

  /** A compaction of a handle that has just loaded keeps all that the file it replaces records. */
  lemma CompactKeepsStale(h: Handle, d: Directory, io: Outcome, now: nat)
    requires Sound(h) && StaleOk(d, now) && WellFormed(d.file.data)
    requires forall k :: k in Records(d.file.data) && Records(d.file.data)[k] > now ==>
               k in h.seen && h.seen[k] >= Records(d.file.data)[k]
    ensures StaleOk(Compact(h, d, io).dir, now)
  {
    CompactedReads(h.seen);
    SyncedFileKeeps(io.inode, Compacted(h.seen.Keys, h.seen), h.seen, Records(d.file.data), now);
  }

  lemma LoadedOutdoes(h: Handle, d: Directory, failed: set<Octets>, now: nat)
    requires Exact(h.seen, d.file.data, failed, now)
    ensures forall k :: k in Records(d.file.data) && Records(d.file.data)[k] > now ==>
              k in h.seen && h.seen[k] >= Records(d.file.data)[k]
  {
    forall k | k in Records(d.file.data) && Records(d.file.data)[k] > now
      ensures k in h.seen && h.seen[k] >= Records(d.file.data)[k]
    {
      assert k in Live(Records(d.file.data), now);
    }
  }

  lemma StaleTimePasses(d: Directory, clock: nat, now: nat)
    requires StaleOk(d, clock) && clock <= now
    ensures StaleOk(d, now)
  {
    if d.stale.Some? {
      FileTimePasses(d.file, Records(d.stale.value.data), clock, now);
    }
  }

  /** An append adds to the current file and leaves the one behind it. */
  lemma AppendKeepsStale(h: Handle, d: Directory, failed: set<Octets>, clock: nat,
                         key: Octets, deadline: uint64, now: uint64, io: Outcome)
    requires HandleOk(h, d, failed, clock) && CleanFile(d.file.data) && StaleOk(d, clock) && clock <= now
    requires Insert(h, d, key, deadline, now, io).dir.stale == d.stale
    ensures StaleOk(Insert(h, d, key, deadline, now, io).dir, now)
  {
    NothingToKeep(d.file, clock);
    InsertKeepsFile(h, d, failed, clock, key, deadline, now, io, map[]);
    if d.stale.Some? {
      InsertKeepsFile(h, d, failed, clock, key, deadline, now, io, Records(d.stale.value.data));
    }
  }

  /** A handle that loaded exactly keeps them too, with one more key. */
  lemma RewriteKeepsStale(l: Handle, d: Directory, failed: set<Octets>, key: Octets, deadline: uint64,
                          io: Outcome, now: nat)
    requires Sound(l) && StaleOk(d, now) && WellFormed(d.file.data) && Exact(l.seen, d.file.data, failed, now)
    requires key !in l.seen && key != [] && deadline > now
    ensures StaleOk(Compact(WithKey(l, key, deadline), d, io).dir, now)
  {
    LoadedOutdoes(l, d, failed, now);
    CompactKeepsStale(WithKey(l, key, deadline), d, io, now);
  }

  lemma InsertKeepsStale(h: Handle, d: Directory, failed: set<Octets>, clock: nat,
                         key: Octets, deadline: uint64, now: uint64, io: Outcome)
    requires HandleOk(h, d, failed, clock) && CleanFile(d.file.data) && StaleOk(d, clock) && clock <= now
    ensures StaleOk(Insert(h, d, key, deadline, now, io).dir, now)
  {
    var a := Insert(h, d, key, deadline, now, io);
    if a.dir.stale == d.stale {
      AppendKeepsStale(h, d, failed, clock, key, deadline, now, io);
    } else {
      var l := Load(h, d, now);
      StaleTimePasses(d, clock, now);
      LoadIsExact(h, d, failed, clock, now);
      RewriteKeepsStale(l.handle, d, failed, key, deadline, io, now);
    }
  }

  lemma MendKeepsStale(l: Loading, d: Directory, io: Outcome, now: nat)
    requires StaleOk(d, now) && (l.Loaded? ==> JustLoaded(l.handle, d, {}, now))
    ensures StaleOk(Mend(l, d, io).dir, now)
  {
    if l.Loaded? {
      LoadedOutdoes(l.handle, d, {}, now);
      CompactKeepsStale(l.handle, d, io, now);
    }
  }

  lemma OpenKeepsStale(d: Directory, now: uint64, io: Outcome)
    requires StaleOk(d, now)
    ensures StaleOk(Open(d, now, io).dir, now)
  {
    FreshScan(d, now, io);
    MendKeepsStale(Scan(FRESH, d, now, io), d, io, now);
  }

  // ---------- the generations a crash can leave ----------

  /** Every generation that a crash can bring back lies below the current one. */
  ghost predicate PastOk(d: Directory) {
    forall g :: g in d.past ==>
      && ReadGeneration(g).Some? && ReadGeneration(d.generation).Some?
      && ReadGeneration(g).value < ReadGeneration(d.generation).value
  }

  lemma CompactKeepsPast(h: Handle, d: Directory, io: Outcome)
    requires PastOk(d) && Current(h, d)
    ensures PastOk(Compact(h, d, io).dir)
  {
    if h.loadedGeneration < MAX_U64 {
      GenerationRoundTrip(h.loadedGeneration + 1);
    }
  }

  lemma FinishKeepsPast(l: Loading, d: Directory, key: Octets, deadline: uint64, io: Outcome)
    requires PastOk(d) && (l.Loaded? ==> Current(l.handle, d))
    ensures PastOk(Finish(l, d, key, deadline, io).dir)
  {
    if l.Loaded? {
      CompactKeepsPast(WithKey(l.handle, key, deadline), d, io);
    }
  }

  lemma MendKeepsPast(l: Loading, d: Directory, io: Outcome)
    requires PastOk(d) && (l.Loaded? ==> Current(l.handle, d))
    ensures PastOk(Mend(l, d, io).dir)
  {
    if l.Loaded? {
      CompactKeepsPast(l.handle, d, io);
    }
  }

  lemma LoadedIsCurrent(h: Handle, d: Directory, now: nat, io: Outcome)
    ensures Scan(h, d, now, io).Loaded? ==> Current(Scan(h, d, now, io).handle, d)
  {
  }

  lemma StepKeepsPast(s: State, e: Event)
    requires PastOk(s.dir) && Enabled(s, e)
    ensures PastOk(Execute(s, e).dir)
  {
    match e
    case OpenHandle(_, now, io) =>
      LoadedIsCurrent(FRESH, s.dir, now, io);
      MendKeepsPast(Scan(FRESH, s.dir, now, io), s.dir, io);
    case InsertKey(id, key, deadline, now, io) =>
      LoadedIsCurrent(s.handles[id], s.dir, now, io);
      FinishKeepsPast(Scan(s.handles[id], s.dir, now, io), s.dir, key, deadline, io);
    case CloseHandle(_) =>
    case Crash(_, _) =>
    case RevertingCrash(_, _) =>
  }

  // ---------- every run ----------

  ghost predicate DirectoryInv(s: State) {
    HandlesOk(s) && StaleOk(s.dir, s.clock) && PastOk(s.dir)
  }

  lemma StepKeepsDirectory(s: State, e: Event)
    requires DirectoryInv(s) && Enabled(s, e)
    ensures DirectoryInv(Execute(s, e))
  {
    StepKeepsPast(s, e);
    match e
    case OpenHandle(_, now, io) =>
      OpenKeepsHandles(s, e);
      StaleTimePasses(s.dir, s.clock, now);
      OpenKeepsStale(s.dir, now, io);
    case InsertKey(id, key, deadline, now, io) =>
      InsertKeepsHandles(s, e);
      InsertKeepsStale(s.handles[id], s.dir, s.failed[id], s.clock, key, deadline, now, io);
    case CloseHandle(_) =>
    case Crash(_, _) =>
    case RevertingCrash(_, _) =>
  }

  lemma {:induction false} RunKeepsDirectory(s: State, events: seq<Event>)
    requires DirectoryInv(s) && ValidRun(s, events)
    ensures DirectoryInv(StateAfter(s, events))
    decreases |events|
  {
    if events != [] {
      StepKeepsDirectory(s, events[0]);
      RunKeepsDirectory(Execute(s, events[0]), events[1..]);
    }
  }

  lemma ReachableDirectory(s: State, events: seq<Event>)
    requires Initial(s) && ValidRun(s, events)
    ensures DirectoryInv(StateAfter(s, events))
  {
    RunKeepsDirectory(s, events);
  }

  /**
   * In every reachable state, after crashes of either kind too, a load of any handle leaves it with the
   * live part of a from-scratch parse of the whole file, plus at most keys of its own failed inserts and
   * of lines cut by read errors.
   */
  lemma ReachableLoadIsExact(s: State, events: seq<Event>, id: nat, now: nat)
    requires Initial(s) && ValidRun(s, events)
    requires id in StateAfter(s, events).handles && StateAfter(s, events).clock <= now
    ensures var t := StateAfter(s, events);
            && id in t.failed
            && (Load(t.handles[id], t.dir, now).Loaded? ==>
                  Exact(Load(t.handles[id], t.dir, now).handle.seen, t.dir.file.data, t.failed[id], now))
  {
    ReachableDirectory(s, events);
    var t := StateAfter(s, events);
    if Load(t.handles[id], t.dir, now).Loaded? {
      LoadIsExact(t.handles[id], t.dir, t.failed[id], t.clock, now);
    }
  }

  /** In every reachable state an insert that meets an unterminated tail leaves the file alone or replaces it. */
  lemma ReachableTailIsNeverExtended(s: State, events: seq<Event>, e: Event)
    requires Initial(s) && ValidRun(s, events) && e.InsertKey? && Enabled(StateAfter(s, events), e)
    requires !IsTerminated(StateAfter(s, events).dir.file.data)
    ensures var t := StateAfter(s, events);
            LeftOrReplaced(t.dir, Inserting(t, e).handle, Inserting(t, e).dir)
  {
    ReachableDirectory(s, events);
    var t := StateAfter(s, events);
    TornTailIsNeverExtended(t.handles[e.id], t.dir, t.failed[e.id], t.clock, e.key, e.deadline, e.now, e.io);
  }

  // ---------- a record that both files keep lasts ----------

  lemma InsertKeepsBoth(s: State, e: Event, m: Seen)
    requires DirectoryInv(s) && BothKeep(s.dir, m, s.clock) && e.InsertKey? && Enabled(s, e)
    ensures BothKeep(Execute(s, e).dir, m, e.now)
  {
    var h, d := s.handles[e.id], s.dir;
    InsertKeepsFile(h, d, s.failed[e.id], s.clock, e.key, e.deadline, e.now, e.io, m);
    InsertStale(h, d, e.key, e.deadline, e.now, e.io);
    FileTimePasses(d.file, m, s.clock, e.now);
    if d.stale.Some? {
      FileTimePasses(d.stale.value, m, s.clock, e.now);
    }
  }

  lemma OpenKeepsBoth(s: State, e: Event, m: Seen)
    requires DirectoryInv(s) && BothKeep(s.dir, m, s.clock) && e.OpenHandle? && Enabled(s, e)
    ensures BothKeep(Execute(s, e).dir, m, e.now)
  {
    var d := s.dir;
    FileTimePasses(d.file, m, s.clock, e.now);
    OpenKeepsOwn(d, e.now, e.io, m);
    OpenStale(d, e.now, e.io);
    if d.stale.Some? {
      FileTimePasses(d.stale.value, m, s.clock, e.now);
    }
  }

  lemma StepKeepsBoth(s: State, e: Event, m: Seen)
    requires DirectoryInv(s) && BothKeep(s.dir, m, s.clock) && Enabled(s, e)
    ensures BothKeep(Execute(s, e).dir, m, Execute(s, e).clock)
  {
    match e
    case OpenHandle(_, _, _) => OpenKeepsBoth(s, e, m);
    case InsertKey(_, _, _, _, _) => InsertKeepsBoth(s, e, m);
    case CloseHandle(_) =>
    case Crash(length, _) => CutKeeps(s.dir.file, length, m, s.clock);
    case RevertingCrash(length, _) => CutKeeps(s.dir.stale.value, length, m, s.clock);
  }

  lemma {:induction false} RunKeepsBoth(s: State, events: seq<Event>, m: Seen)
    requires DirectoryInv(s) && BothKeep(s.dir, m, s.clock) && ValidRun(s, events)
    ensures BothKeep(StateAfter(s, events).dir, m, StateAfter(s, events).clock)
    decreases |events|
  {
    if events != [] {
      StepKeepsBoth(s, events[0], m);
      StepKeepsDirectory(s, events[0]);
      RunKeepsBoth(Execute(s, events[0]), events[1..], m);
    }
  }

  // ---------- the exact condition ----------

  /** The run `events` followed by `e` admits `k` again before its deadline. */
  ghost predicate Readmits(t: State, events: seq<Event>, e: Event, k: Octets, deadline: nat) {
    && ValidRun(t, events) && Enabled(StateAfter(t, events), e)
    && e.InsertKey? && e.key == k && e.now < deadline && Inserting(StateAfter(t, events), e).inserted
  }

  /** An acknowledged insert. */
  ghost predicate Acknowledges(s: State, e: Event) {
    e.InsertKey? && Enabled(s, e) && Inserting(s, e).inserted && Inserting(s, e).ok
  }

  lemma AcknowledgedIsKept(s: State, first: Event)
    requires DirectoryInv(s) && Acknowledges(s, first) && Execute(s, first).dir.stale.None?
    ensures BothKeep(Execute(s, first).dir, map[first.key := first.deadline], first.now)
  {
    NothingToKeep(s.dir.file, s.clock);
    InsertKeepsOwn(s.handles[first.id], s.dir, s.failed[first.id], s.clock, first.key, first.deadline, first.now,
                   first.io, map[]);
    var none: Seen := map[];
    assert none[first.key := first.deadline] == map[first.key := first.deadline];
  }

  /** Nothing readmits the key of an insert that left no undoable rename behind, whatever crashes follow. */
  lemma NeverReadmitted(s: State, first: Event, events: seq<Event>, e: Event)
    requires DirectoryInv(s) && Acknowledges(s, first) && Execute(s, first).dir.stale.None?
    ensures !Readmits(Execute(s, first), events, e, first.key, first.deadline)
  {
    var t, m := Execute(s, first), map[first.key := first.deadline];
    AcknowledgedIsKept(s, first);
    StepKeepsDirectory(s, first);
    if ValidRun(t, events) {
      RunKeepsDirectory(t, events);
      RunKeepsBoth(t, events, m);
      var u := StateAfter(t, events);
      if e.InsertKey? && Enabled(u, e) {
        InsertKeepsOwn(u.handles[e.id], u.dir, u.failed[e.id], u.clock, e.key, e.deadline, e.now, e.io, m);
      }
    }
  }

  lemma InsertedIsNew(h: Handle, d: Directory, failed: set<Octets>, clock: nat, key: Octets, deadline: uint64,
                      now: uint64, io: Outcome)
    requires HandleOk(h, d, failed, clock) && clock <= now && Insert(h, d, key, deadline, now, io).inserted
    ensures WellFormed(d.file.data) && key !in Live(Records(d.file.data), now)
  {
    LoadIsExact(h, d, failed, clock, now);
  }

  lemma OutdoneIsLive(f: File, m: Seen, k: Octets, now: nat)
    requires FileOk(f, m, now) && f.synced <= |f.data|
    ensures k in Live(m, now) ==> k in Live(Records(f.data), now)
  {
    assert f.data[..|f.data|] == f.data;
    assert Keeps(f.data[..|f.data|], m, now);
  }

  /** The key of an acknowledged append is not live in the file a crash can bring back. */
  lemma NotInStale(s: State, first: Event)
    requires DirectoryInv(s) && Acknowledges(s, first) && Execute(s, first).dir.stale.Some?
    ensures Execute(s, first).dir.stale == s.dir.stale
    ensures first.key !in Live(Records(s.dir.stale.value.data), first.now)
  {
    LeavesRenameIff(s.handles[first.id], s.dir, first.key, first.deadline, first.now, first.io);
    var d, m := s.dir, Records(s.dir.stale.value.data);
    InsertedIsNew(s.handles[first.id], d, s.failed[first.id], s.clock, first.key, first.deadline, first.now, first.io);
    FileTimePasses(d.file, m, s.clock, first.now);
    OutdoneIsLive(d.file, m, first.key, first.now);
  }

  // ---------- the crash that readmits ----------

  /** Nothing new to read and nothing expired: a load changes nothing. */
  lemma LoadAgain(h: Handle, d: Directory, now: nat)
    requires Current(h, d) && h.loadedSize == |d.file.data| && h.minDeadline > now
    ensures Load(h, d, now) == Loaded(h, false, false)
  {
    EmptyReads(d.file.data[h.loadedSize..], Reading(h.seen, h.minDeadline, true));
  }

  /** With nothing to mend, a new key is appended and acknowledged. */
  lemma CalmInsert(h: Handle, d: Directory, k: Octets, deadline: uint64, now: uint64)
    requires Load(h, d, now).Loaded? && !Load(h, d, now).expired && !Load(h, d, now).torn
    requires Admissible(k, deadline, now) && k !in Load(h, d, now).handle.seen
    ensures Insert(h, d, k, deadline, now, HEALTHY).inserted && Insert(h, d, k, deadline, now, HEALTHY).ok
  {
  }

  /** What a healthy open leaves behind needs no mending at the same time. */
  lemma MendedLoads(l: Loading, d: Directory, now: nat, w: Written)
    requires l.Loaded? && JustLoaded(l.handle, d, {}, now) && l.handle.loadedGeneration < MAX_U64
    requires !l.expired && !l.torn ==> l.handle.minDeadline > now && Tail(d.file.data) == []
    requires w == Mend(l, d, HEALTHY) && now < MAX_U64
    ensures var r := Load(w.handle, w.dir, now); r.Loaded? && !r.expired && !r.torn
  {
    if l.expired || l.torn {
      LoadCompacted(w.handle, w.dir, l.handle.seen, l.handle.loadedGeneration + 1, now + 1, now);
    } else {
      assert d.file.data[..|d.file.data|] == d.file.data;
      LoadAgain(w.handle, w.dir, now);
    }
  }

  lemma FreshMinimum(d: Directory, now: nat)
    ensures var l := Load(FRESH, d, now); l.Loaded? && !l.expired ==> l.handle.minDeadline > now
  {
  }

  /** A key that a readable directory does not record as live is admitted to it, and acknowledged. */
  lemma ReopenedAdmits(d: Directory, k: Octets, deadline: uint64, now: uint64)
    requires WellFormed(d.file.data) && Admissible(k, deadline, now) && k !in Live(Records(d.file.data), now)
    requires ReadGeneration(d.generation).Some? && ReadGeneration(d.generation).value < MAX_U64
    ensures Open(d, now, HEALTHY).ok && Reinsert(d, k, deadline, now).inserted && Reinsert(d, k, deadline, now).ok
  {
    OpenReads(d, now);
    ReadmittedIff(d, k, deadline, now);
    FreshLoads(d, now);
    FreshMinimum(d, now);
    FreshScan(d, now, HEALTHY);
    var w := Open(d, now, HEALTHY);
    MendedLoads(Load(FRESH, d, now), d, now, w);
    CalmAnswer(w.handle, w.dir, k, deadline, now);
  }

  lemma CalmAnswer(h: Handle, d: Directory, k: Octets, deadline: uint64, now: uint64)
    requires Load(h, d, now).Loaded? && !Load(h, d, now).expired && !Load(h, d, now).torn
             && Admissible(k, deadline, now)
    requires Insert(h, d, k, deadline, now, HEALTHY).inserted
    ensures Insert(h, d, k, deadline, now, HEALTHY).ok
  {
  }

  /** The run in which a crash leaves `c` behind, and a process opens the directory and inserts the key. */
  function Reopening(now: uint64): Event {
    OpenHandle(0, now, HEALTHY)
  }

  function Reinserting(k: Octets, deadline: uint64, now: uint64): Event {
    InsertKey(0, k, deadline, now, HEALTHY)
  }

  lemma ReopenThenInsert(c: State, k: Octets, deadline: uint64, now: uint64)
    requires c.handles == map[] && c.failed == map[] && c.clock <= now && Open(c.dir, now, HEALTHY).ok
    ensures Enabled(c, Reopening(now))
    ensures var o := Execute(c, Reopening(now));
            && Enabled(o, Reinserting(k, deadline, now))
            && Inserting(o, Reinserting(k, deadline, now)) == Reinsert(c.dir, k, deadline, now)
  {
  }

  lemma TwoSteps(t: State, a: Event, b: Event)
    requires Enabled(t, a) && Enabled(Execute(t, a), b)
    ensures ValidRun(t, [a, b]) && StateAfter(t, [a, b]) == Execute(Execute(t, a), b)
  {
    var t1, t2 := Execute(t, a), Execute(Execute(t, a), b);
    assert [a, b][1..] == [b] && [b][1..] == [];
    assert ValidRun(t2, []) && StateAfter(t2, []) == t2;
    assert ValidRun(t1, [b]) && StateAfter(t1, [b]) == t2;
  }

  /** The crash that brings the older file back whole, with a generation that may be left. */
  function Revert(f: File, generation: Octets): Event {
    RevertingCrash(|f.data|, generation)
  }

  lemma Reverted(t: State, generation: Octets)
    requires t.dir.stale.Some? && t.dir.stale.value.synced <= |t.dir.stale.value.data| && MayLeave(t.dir, generation)
    ensures var f := t.dir.stale.value;
            && Enabled(t, Revert(f, generation))
            && Execute(t, Revert(f, generation))
               == State(Directory(File(f.inode, f.data, |f.data|), generation, {}, None), map[], map[], t.clock,
                        t.acked)
  {
    var f := t.dir.stale.value;
    assert f.data[..|f.data|] == f.data;
  }

  /** The key is admitted again at once, and acknowledged. */
  ghost predicate ReadmitsAt(t: State, crash: Event, k: Octets, deadline: uint64, now: uint64) {
    var run := [crash, Reopening(now)];
    && Readmits(t, run, Reinserting(k, deadline, now), k, deadline)
    && Inserting(StateAfter(t, run), Reinserting(k, deadline, now)).ok
  }

  lemma CrashReadmits(t: State, crash: Event, c: State, k: Octets, deadline: uint64, now: uint64)
    requires Enabled(t, crash) && Execute(t, crash) == c && c.handles == map[] && c.failed == map[] && c.clock <= now
    requires Open(c.dir, now, HEALTHY).ok && Reinsert(c.dir, k, deadline, now).inserted
             && Reinsert(c.dir, k, deadline, now).ok
    requires now < deadline
    ensures ReadmitsAt(t, crash, k, deadline, now)
  {
    ReopenThenInsert(c, k, deadline, now);
    TwoSteps(t, crash, Reopening(now));
  }

  /** A directory whose generation can still advance after some crash. */
  ghost predicate Usable(d: Directory, generation: Octets) {
    MayLeave(d, generation) && ReadGeneration(generation).Some? && ReadGeneration(generation).value < MAX_U64
  }

  /** The crash that brings the older file back readmits the key of an acknowledged append. */
  lemma RevertReadmits(s: State, first: Event, generation: Octets)
    requires DirectoryInv(s) && Acknowledges(s, first) && Execute(s, first).dir.stale.Some?
    requires Usable(Execute(s, first).dir, generation)
    ensures var t := Execute(s, first);
            ReadmitsAt(t, Revert(t.dir.stale.value, generation), first.key, first.deadline, first.now)
  {
    var t := Execute(s, first);
    NotInStale(s, first);
    StaleIsSound(s, first);
    AckedWindow(s, first);
    var f := t.dir.stale.value;
    var c := Execute(t, Revert(f, generation));
    Reverted(t, generation);
    ReopenedAdmits(c.dir, first.key, first.deadline, first.now);
    CrashReadmits(t, Revert(f, generation), c, first.key, first.deadline, first.now);
  }

  lemma StaleIsSound(s: State, first: Event)
    requires DirectoryInv(s) && Acknowledges(s, first) && Execute(s, first).dir.stale == s.dir.stale
    ensures var d := Execute(s, first).dir;
            d.stale.Some? ==> d.stale.value.synced <= |d.stale.value.data| && WellFormed(d.stale.value.data)
  {
  }

  lemma AckedWindow(s: State, first: Event)
    requires Acknowledges(s, first)
    ensures Admissible(first.key, first.deadline, first.now) && Execute(s, first).clock == first.now
  {
  }

  /**
   * Seen from before the insert: it leaves such a rename exactly when one was there and the insert appends, because
   * its load found neither an expired record nor a torn tail to compact away.
   */
  lemma LeavesRenameIff(h: Handle, d: Directory, key: Octets, deadline: uint64, now: uint64, io: Outcome)
    requires Insert(h, d, key, deadline, now, io).inserted && Insert(h, d, key, deadline, now, io).ok
    ensures var l := Load(h, d, now);
            Insert(h, d, key, deadline, now, io).dir.stale.Some?
            <==> d.stale.Some? && l.Loaded? && !l.expired && !l.torn
    ensures Insert(h, d, key, deadline, now, io).dir.stale.Some?
            ==> Insert(h, d, key, deadline, now, io).dir.stale == d.stale
  {
    var l := Load(h, d, now);
    WriteLeaves(WithKey(l.handle, key, deadline), d, l.expired || l.torn, FormatLine(key, deadline), io);
  }

  lemma WriteLeaves(h: Handle, d: Directory, compacts: bool, line: Octets, io: Outcome)
    ensures var w := if compacts then Compact(h, d, io) else Append(h, d, line, io);
            w.ok ==> (w.dir.stale.Some? <==> d.stale.Some? && !compacts) && (w.dir.stale.Some?
                                                                             ==> w.dir.stale == d.stale)
  {
  }
}

/**
 * What the retention cache does not survive: a crash that undoes an unsynced rename. A compaction
 * whose final directory sync fails leaves such a rename, and later appends are acknowledged on top
 * of it.
 */
module RetentionRevert {
  import opened Bytes
  import opened RetentionRecord
  import opened RetentionLog
  import opened RetentionMachine
  import opened RetentionSafety

  const HEALTHY := Outcome(false, None, None, Done, 0)

  /** Opening the directory afresh at `now` and inserting `k`, with nothing failing. */
  ghost function Reinsert(d: Directory, k: Octets, deadline: uint64, now: uint64): Answer {
    var w := Open(d, now, HEALTHY);
    Insert(w.handle, w.dir, k, deadline, now, HEALTHY)
  }

  lemma ExactIsLive(seen: Seen, data: Octets, now: nat)
    requires Exact(seen, data, {}, now)
    ensures seen == Live(Records(data), now) && Live(seen, now) == seen
  {
  }

  lemma OpenByCompaction(h: Handle, d: Directory, now: nat)
    requires Current(h, d) && Sound(h) && h.loadedGeneration < MAX_U64
    requires Exact(h.seen, d.file.data, {}, now)
    ensures var w := Compact(h, d, HEALTHY);
            && w.ok && HandleOk(w.handle, w.dir, {}, now) && WellFormed(w.dir.file.data)
            && Live(Records(w.dir.file.data), now) == Live(Records(d.file.data), now)
  {
    GenerationRoundTrip(h.loadedGeneration + 1);
    CompactedReads(h.seen);
    ExactIsLive(h.seen, d.file.data, now);
  }

  /** What a healthy open leaves behind, given what it has loaded. */
  lemma LoadedReads(l: Loading, d: Directory, now: nat, w: Written)
    requires l.Loaded? && JustLoaded(l.handle, d, {}, now) && l.handle.loadedGeneration < MAX_U64
    requires w == Mend(l, d, HEALTHY)
    ensures w.ok && HandleOk(w.handle, w.dir, {}, now) && WellFormed(w.dir.file.data)
    ensures Live(Records(w.dir.file.data), now) == Live(Records(d.file.data), now)
  {
    if l.expired || l.torn {
      OpenByCompaction(l.handle, d, now);
    } else {
      LoadedFollows(l.handle, d, {}, now);
    }
  }

  lemma HealthyOpen(d: Directory, now: uint64)
    requires now > 0
    ensures Open(d, now, HEALTHY) == Mend(Load(FRESH, d, now), d, HEALTHY)
  {
  }

  lemma FreshLoads(d: Directory, now: nat)
    requires WellFormed(d.file.data) && ReadGeneration(d.generation).Some?
    ensures Load(FRESH, d, now).Loaded? && JustLoaded(Load(FRESH, d, now).handle, d, {}, now)
    ensures Load(FRESH, d, now).handle.loadedGeneration == ReadGeneration(d.generation).value
  {
    ReadAgrees(FRESH, d, {}, now);
    LoadIsExact(FRESH, d, {}, now, now);
  }

  /** A fresh handle on a readable directory holds exactly the live records. */
  lemma OpenReads(d: Directory, now: uint64)
    requires now > 0 && WellFormed(d.file.data)
    requires ReadGeneration(d.generation).Some? && ReadGeneration(d.generation).value < MAX_U64
    ensures var w := Open(d, now, HEALTHY);
            && w.ok && HandleOk(w.handle, w.dir, {}, now) && WellFormed(w.dir.file.data)
            && Live(Records(w.dir.file.data), now) == Live(Records(d.file.data), now)
  {
    FreshLoads(d, now);
    HealthyOpen(d, now);
    LoadedReads(Load(FRESH, d, now), d, now, Open(d, now, HEALTHY));
  }

  /**
   * After any crash that leaves a readable directory, a live acknowledged key is admitted again
   * exactly when the surviving file does not record it as live.
   */
  lemma ReadmittedIff(d: Directory, k: Octets, deadline: uint64, now: uint64)
    requires now > 0 && WellFormed(d.file.data) && k != [] && deadline > now
    requires ReadGeneration(d.generation).Some? && ReadGeneration(d.generation).value < MAX_U64
    ensures Reinsert(d, k, deadline, now).inserted <==> k !in Live(Records(d.file.data), now)
  {
    OpenReads(d, now);
    var w := Open(d, now, HEALTHY);
    ReadAgrees(w.handle, w.dir, {}, now);
    var l := Load(w.handle, w.dir, now);
    assert l.Loaded?;
    LoadIsExact(w.handle, w.dir, {}, now, now);
    assert k in l.handle.seen <==> k in Live(Records(w.dir.file.data), now);
  }

  // ---------- a run that loses an acknowledged key ----------

  const D0 := Directory(File(0, [], 0), [], {}, None)
  const D1 := Directory(File(0, [48], 0), [], {}, None)
  const H0 := Handle(map[], MAX_U64, Some(0), 0, 0)
  const H1 := Handle(map[[0] := 100], 100, Some(0), 0, 0)

  const TORN := Outcome(false, None, Some(1), Done, 0)
  const UNSYNCED := Outcome(false, None, None, AfterRename, 1)

  const EMPTY := State(D0, map[], map[], 0, map[])

  const OPEN := OpenHandle(0, 1, HEALTHY)
  const TEAR := InsertKey(0, [0], 100, 1, TORN)
  const REPAIR := InsertKey(0, [1], 100, 1, UNSYNCED)
  const LOST := InsertKey(0, [2], 100, 1, HEALTHY)
  const REVERT := RevertingCrash(1, EncodeBE(1, GENERATION_OCTETS))

  lemma TornDigit()
    ensures FormatLine([0], 100)[..1] == [48]
    ensures forall f: Reading :: f.ok ==> Read([48], f) == f
    ensures BodyLength([48]) == 0 && Tail([48]) == [48]
  {
    assert HexEncode([0]) == [48, 48];
    assert IndexOf([48], NEWLINE) == 1;
    assert [48][1..] == [];
    assert IndexOf([48], TAB) == 1;
    assert Split([48], TAB) == [[48]];
    assert ParseRecord([48]) == None;
    assert Lines([48]) == [];
    assert Entries([48]) == [];
  }

  lemma EmptyReads(s: Octets, f: Reading)
    requires s == []
    ensures Read(s, f) == f && BodyLength(s) == 0 && Tail(s) == []
  {
    assert Lines(s) == [];
    assert Entries(s) == [];
  }

  lemma LoadEmpty(h: Handle, d: Directory, now: nat)
    requires d.file.data == [] && d.generation == [] && now < h.minDeadline
    requires h == FRESH || (h.loaded == Some(d.file.inode) && h.loadedSize == 0 && h.loadedGeneration == 0)
    ensures Load(h, d, now) == Loaded(h.(loaded := Some(d.file.inode)), false, false)
  {
    EmptyReads(d.file.data[Offset(h, d)..], Start(h, d));
  }

  lemma OpenEmpty(d: Directory, now: uint64, io: Outcome)
    requires d.file.data == [] && d.generation == [] && 0 < now < MAX_U64 && !io.loadFails && io.readFails.None?
             && io.stage == Done
    ensures Open(d, now, io) == Written(FRESH.(loaded := Some(d.file.inode)), d.(past := {}, stale := None), true)
  {
    LoadEmpty(FRESH, d, now);
  }

  lemma TearEmpty(h: Handle, d: Directory, key: Octets, deadline: uint64, now: uint64, io: Outcome, n: nat)
    requires d.file.data == [] && d.generation == [] && 0 < now < deadline && now < h.minDeadline && key != []
             && key !in h.seen
    requires h.loaded == Some(d.file.inode) && h.loadedSize == 0 && h.loadedGeneration == 0
    requires !io.loadFails && io.readFails.None? && io.appendFails == Some(n) && n <= |FormatLine(key, deadline)|
    ensures Insert(h, d, key, deadline, now, io)
            == Answer(WithKey(h, key, deadline), d.(file := d.file.(data := FormatLine(key, deadline)[..n])), true,
                      false)
  {
    LoadEmpty(h, d, now);
    assert d.file.data + FormatLine(key, deadline)[..n] == FormatLine(key, deadline)[..n];
  }

  /** An append that fails after one octet leaves the digit behind. */
  lemma TearFile()
    ensures Insert(H0, D0, [0], 100, 1, TORN) == Answer(H1, D1, true, false)
  {
    TornDigit();
    assert |FormatLine([0], 100)| >= 1;
    TearEmpty(H0, D0, [0], 100, 1, TORN, 1);
    assert WithKey(H0, [0], 100) == H1;
  }

  /** The next insert compacts; its rename is visible but not durable. */
  lemma RepairFile()
    ensures var a := Insert(H1, D1, [1], 100, 1, UNSYNCED);
            && !a.ok && a.inserted && a.handle.loaded == None
            && a.dir == Directory(File(1, Compacted(a.handle.seen.Keys, a.handle.seen),
                                       |Compacted(a.handle.seen.Keys, a.handle.seen)|),
                                  EncodeBE(1, GENERATION_OCTETS), {}, Some(D1.file))
            && Writable(a.handle.seen) && LowerBound(100, a.handle.seen) && [2] !in a.handle.seen
  {
    TornDigit();
    assert D1.file.data[0..] == [48];
    assert Load(H1, D1, 1) == Loaded(H1, false, true);
  }

  /** Reading a compacted file finds no deadline below those it was written from. */
  lemma {:induction false} CompactedMinimum(keys: set<Octets>, m: Seen, f: Reading, low: nat)
    requires keys <= m.Keys && Writable(m) && LowerBound(low, m) && f.ok && f.minDeadline >= low
    ensures Read(Compacted(keys, m), f).minDeadline >= low
    decreases |keys|
  {
    if keys == {} {
      EmptyReads(Compacted(keys, m), f);
    } else {
      var k := Least(keys);
      var line := FormatLine(k, m[k]);
      WrittenLine(k, m[k], f);
      ReadResumes(line, Compacted(keys - {k}, m), f);
      CompactedMinimum(keys - {k}, m, Read(line, f), low);
      assert Compacted(keys, m) == line + Compacted(keys - {k}, m);
    }
  }

  lemma LoadCompacted(h: Handle, d: Directory, m: Seen, generation: uint64, low: nat, now: nat)
    requires h.loaded == None && d.generation == EncodeBE(generation, GENERATION_OCTETS)
    requires Writable(m) && LowerBound(low, m) && now < low <= MAX_U64 && d.file.data == Compacted(m.Keys, m)
    ensures var l := Load(h, d, now);
            l.Loaded? && !l.expired && !l.torn && l.handle.seen == m
  {
    var data := d.file.data;
    CompactedReads(m);
    CompactedMinimum(m.Keys, m, NOTHING, low);
    GenerationRoundTrip(generation);
    CleanTail(data);
    assert data[0..] == data;
  }

  lemma CleanTail(data: Octets)
    requires IsTerminated(data)
    ensures BodyLength(data) == |data| && Tail(data) == []
  {
    TailConcat(data, data);
  }

  /** On top of the unsynced rename an append is synced and acknowledged. */
  lemma AppendAfterRepair(h: Handle, d: Directory, m: Seen, generation: uint64, key: Octets, deadline: uint64,
                          now: uint64, io: Outcome)
    requires h.loaded == None && d.generation == EncodeBE(generation, GENERATION_OCTETS)
    requires Writable(m) && LowerBound(deadline, m) && d.file.data == Compacted(m.Keys, m)
    requires key !in m && key != [] && 0 < now < deadline && !io.loadFails && io.readFails.None? && io.appendFails.None?
    ensures var a := Insert(h, d, key, deadline, now, io);
            a.inserted && a.ok && a.dir.stale == d.stale && a.dir.generation == d.generation
  {
    LoadCompacted(h, d, m, generation, deadline, now);
  }

  lemma TornFileReadmits(d: Directory)
    requires d.file == Cut(D1.file, 1) && d.generation == EncodeBE(1, GENERATION_OCTETS)
    ensures Reinsert(d, [2], 100, 1).inserted
  {
    TornDigit();
    assert [48][..1] == [48];
    GenerationRoundTrip(1);
    ReadmittedIff(d, [2], 100, 1);
  }

  /**
   * The property is false when a crash undoes a rename: a handle tears an append, repairs it by a
   * compaction whose directory sync fails, and has its next insert acknowledged; the crash brings
   * the torn file back and the same key is admitted again before its deadline.
   */
  lemma AcknowledgedKeyIsReadmitted()
    ensures Initial(EMPTY) && Enabled(EMPTY, OPEN)
    ensures var s1 := Execute(EMPTY, OPEN);
            && Enabled(s1, TEAR)
            && var s2 := Execute(s1, TEAR);
            && Enabled(s2, REPAIR)
            && var s3 := Execute(s2, REPAIR);
            && Enabled(s3, LOST) && Inserting(s3, LOST).inserted && Inserting(s3, LOST).ok
            && var s4 := Execute(s3, LOST);
            && s4.acked == map[[2] := 100]
            && Enabled(s4, REVERT)
            && var s5 := Execute(s4, REVERT);
               s5.clock < 100 && Reinsert(s5.dir, [2], 100, 1).inserted
  {
    OpenEmpty(D0, 1, HEALTHY);
    TearFile();
    RepairFile();
    var a := Insert(H1, D1, [1], 100, 1, UNSYNCED);
    AppendAfterRepair(a.handle, a.dir, a.handle.seen, 1, [2], 100, 1, HEALTHY);
    TornFileReadmits(Directory(Cut(D1.file, 1), EncodeBE(1, GENERATION_OCTETS), {}, None));
  }
}

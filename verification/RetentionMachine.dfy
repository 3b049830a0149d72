/**
 * The retention replay cache as a state machine: a shared directory, any number of handles,
 * failing input and output, and machine crashes. Each locked region is one step.
 */
module RetentionMachine {
  import opened Bytes
  import opened RetentionRecord
  import opened RetentionLog

  /** `synced` octets of `data` are durable. `inode` is the identity the file system reports. */
  datatype File = File(inode: nat, data: Octets, synced: nat)

  /**
   * `generation` is the content of the generation file. `stale` is the data file and `past` the
   * generations that a crash can bring back, as long as the renames that replaced them have not been
   * synced.
   */
  datatype Directory = Directory(file: File, generation: Octets, past: set<Octets>, stale: Option<File>)

  datatype Handle = Handle(
    seen: Seen, minDeadline: uint64, loaded: Option<nat>, loadedSize: nat, loadedGeneration: uint64)

  const FRESH := Handle(map[], MAX_U64, None, 0, 0)

  /**
   * How far a compaction gets: to the generation rename, to the directory sync that makes it (and every earlier
   * rename) durable, to the data rename, to the final directory sync, or to the end.
   */
  datatype Stage = BeforeGeneration | GenerationUnsynced | AfterGeneration | AfterRename | Done

  /**
   * The outcome of the input and output of one locked region. `loadFails` stops the load before it
   * reads, `readFails(n)` after `n` octets of the scan, `appendFails(n)` leaves `n` octets of the line
   * unsynced, `inode` is the identity a new data file gets, which may have been used before.
   */
  datatype Outcome = Outcome(loadFails: bool, readFails: Option<nat>, appendFails: Option<nat>, stage: Stage,
                             inode: nat)

  const GENERATION_OCTETS: nat := 8

  // ---------- load ----------

  /** An empty generation file is the legacy state before the first compaction. */
  function ReadGeneration(g: Octets): (r: Option<uint64>) {
    if g == [] then Some(0)
    else if |g| != 8 then None
    else
      EncodeDecodeBE(g);
      assert Pow256(8) == MAX_U64 + 1;
      Some(DecodeBE(g))
  }

  lemma GenerationRoundTrip(g: uint64)
    ensures ReadGeneration(EncodeBE(g, GENERATION_OCTETS)) == Some(g)
  {
    assert Pow256(8) == MAX_U64 + 1;
    DecodeEncodeBE(g, 8);
  }

  ghost predicate IsEarliest(low: uint64, m: Seen) {
    LowerBound(low, m) && (low == MAX_U64 || exists k :: k in m && m[k] == low)
  }

  lemma {:induction false} EarliestExists(m: Seen)
    ensures exists low: uint64 :: IsEarliest(low, m)
    decreases |m|
  {
    if m == map[] {
      assert IsEarliest(MAX_U64, m);
    } else {
      var k :| k in m;
      var rest := m - {k};
      assert rest.Keys == m.Keys - {k};
      EarliestExists(rest);
      var low: uint64 :| IsEarliest(low, rest);
      assert forall x :: x in m ==> x == k || (x in rest && rest[x] == m[x]);
      if m[k] < low {
        assert IsEarliest(m[k], m);
      } else {
        assert IsEarliest(low, m);
      }
    }
  }

  ghost function Earliest(m: Seen): (low: uint64)
    ensures IsEarliest(low, m)
  {
    EarliestExists(m);
    var low: uint64 :| IsEarliest(low, m);
    low
  }

  datatype Loading = LoadFailed(handle: Handle) | Loaded(handle: Handle, expired: bool, torn: bool)

  predicate Current(h: Handle, d: Directory) {
    && h.loaded == Some(d.file.inode)
    && ReadGeneration(d.generation) == Some(h.loadedGeneration)
    && h.loadedSize <= |d.file.data|
  }

  /** Where reading starts: after what was consumed, or at the beginning when the file may have been replaced. */
  function Offset(h: Handle, d: Directory): (n: nat)
    ensures n <= |d.file.data|
  {
    if Current(h, d) then h.loadedSize else 0
  }

  function Start(h: Handle, d: Directory): Reading {
    if Current(h, d) then Reading(h.seen, h.minDeadline, true) else NOTHING
  }

  /** Drops expired records once the earliest resident deadline has passed. */
  ghost function Settle(h: Handle, torn: bool, now: nat): Loading {
    if h.minDeadline > now then Loaded(h, false, torn)
    else
      var live := Live(h.seen, now);
      Loaded(h.(seen := live, minDeadline := Earliest(live)), true, torn)
  }

  ghost function Load(h: Handle, d: Directory, now: nat): Loading {
    var generation := ReadGeneration(d.generation);
    if generation.None? then LoadFailed(h)
    else
      var rest := d.file.data[Offset(h, d)..];
      var r := Read(rest, Start(h, d));
      if !r.ok then LoadFailed(h.(seen := r.seen, minDeadline := r.minDeadline))
      else
        var size := Offset(h, d) + BodyLength(rest);
        Settle(Handle(r.seen, r.minDeadline, Some(d.file.inode), size, generation.value), Tail(rest) != [], now)
  }

  /** The part of a scan that a read error after `n` octets still delivers. */
  function Delivered(h: Handle, d: Directory, n: nat): Octets {
    var rest := d.file.data[Offset(h, d)..];
    rest[..Min(n, |rest|)]
  }

  /**
   * A read error leaves behind what had been read, its last line taken for a torn one, and nothing marked as loaded.
   */
  function PartialLoad(h: Handle, d: Directory, n: nat): Handle {
    if ReadGeneration(d.generation).None? then h
    else
      var r := Read(Delivered(h, d, n), Start(h, d));
      h.(seen := r.seen, minDeadline := r.minDeadline)
  }

  /** The key that the cut line of such a scan may be taken for. */
  function Stray(h: Handle, d: Directory, n: nat): set<Octets> {
    match ParseRecord(Tail(Delivered(h, d, n)))
    case None => {}
    case Some(r) => {r.key}
  }

  /** A load that may fail. */
  ghost function Scan(h: Handle, d: Directory, now: nat, io: Outcome): Loading {
    if io.loadFails then LoadFailed(h)
    else if io.readFails.Some? then LoadFailed(PartialLoad(h, d, io.readFails.value))
    else Load(h, d, now)
  }

  // ---------- insert ----------

  predicate Admissible(key: Octets, deadline: uint64, now: uint64) {
    0 < now < deadline && key != []
  }

  datatype Written = Written(handle: Handle, dir: Directory, ok: bool)

  /** Replaces the data file by the resident map; the new generation is durable before the rename. */
  ghost function Compact(h: Handle, d: Directory, io: Outcome): Written {
    if h.loadedGeneration == MAX_U64 || io.stage == BeforeGeneration then Written(h, d, false)
    else
      var generation := EncodeBE(h.loadedGeneration + 1, GENERATION_OCTETS);
      if io.stage == GenerationUnsynced then
        Written(h, d.(generation := generation, past := d.past + {d.generation}), false)
      else if io.stage == AfterGeneration then
        Written(h, d.(generation := generation, past := {}, stale := None), false)
      else
        var data := Compacted(h.seen.Keys, h.seen);
        var file := File(io.inode, data, |data|);
        var stale := if io.stage == Done then None else Some(d.file);
        Written(h.(loaded := None, loadedSize := 0, loadedGeneration := h.loadedGeneration + 1),
                Directory(file, generation, {}, stale), io.stage == Done)
  }

  ghost function Append(h: Handle, d: Directory, line: Octets, io: Outcome): Written {
    if io.appendFails.Some? then
      var n := Min(io.appendFails.value, |line|);
      Written(h, d.(file := d.file.(data := d.file.data + line[..n])), false)
    else
      var data := d.file.data + line;
      Written(h.(loadedSize := h.loadedSize + |line|), d.(file := d.file.(data := data, synced := |data|)), true)
  }

  datatype Answer = Answer(handle: Handle, dir: Directory, inserted: bool, ok: bool)

  /** What an insert does once the file has been read. */
  ghost function Finish(l: Loading, d: Directory, key: Octets, deadline: uint64, io: Outcome): Answer {
    match l
    case LoadFailed(h1) => Answer(h1, d, false, false)
    case Loaded(h1, expired, torn) =>
      if key in h1.seen then Answer(h1, d, false, true)
      else
        var h2 := h1.(seen := h1.seen[key := deadline], minDeadline := Min(h1.minDeadline, deadline));
        var w := if expired || torn then Compact(h2, d, io) else Append(h2, d, FormatLine(key, deadline), io);
        Answer(w.handle, w.dir, true, w.ok)
  }

  ghost function Insert(h: Handle, d: Directory, key: Octets, deadline: uint64, now: uint64, io: Outcome): Answer {
    if !Admissible(key, deadline, now) then Answer(h, d, false, false)
    else Finish(Scan(h, d, now, io), d, key, deadline, io)
  }

  /** Repairs a torn or expired file, and otherwise syncs the directory. */
  ghost function Mend(l: Loading, d: Directory, io: Outcome): Written {
    match l
    case LoadFailed(h1) => Written(h1, d, false)
    case Loaded(h1, expired, torn) =>
      if expired || torn then Compact(h1, d, io)
      else Written(h1, if io.stage == Done then d.(past := {}, stale := None) else d, io.stage == Done)
  }

  /** Opening loads and mends. */
  ghost function Open(d: Directory, now: uint64, io: Outcome): Written {
    if now == 0 then Written(FRESH, d, false) else Mend(Scan(FRESH, d, now, io), d, io)
  }

  // ---------- runs ----------

  datatype Event =
    | OpenHandle(id: nat, now: uint64, io: Outcome)
    | InsertKey(id: nat, key: Octets, deadline: uint64, now: uint64, io: Outcome)
    | CloseHandle(id: nat)
    | Crash(length: nat, generation: Octets)
    | RevertingCrash(length: nat, generation: Octets)

  /**
   * `acked` holds the deadline of every key whose insert returned (true, nil); `failed` the keys
   * whose insert by that handle reported an error after the key became resident, or that a line cut
   * by a read error was taken for.
   */
  datatype State = State(
    dir: Directory, handles: map<nat, Handle>, failed: map<nat, set<Octets>>, clock: nat, acked: Seen)

  predicate Initial(s: State) {
    && s.dir.past == {} && s.dir.stale == None && s.dir.file.synced == |s.dir.file.data|
    && s.handles == map[] && s.failed == map[] && s.acked == map[]
  }

  predicate Enabled(s: State, e: Event) {
    match e
    case OpenHandle(id, now, _) => s.clock <= now && id !in s.handles
    case InsertKey(id, _, _, now, _) => s.clock <= now && id in s.handles && id in s.failed
    case CloseHandle(id) => true
    case Crash(length, generation) =>
      s.dir.file.synced <= length <= |s.dir.file.data| && MayLeave(s.dir, generation)
    case RevertingCrash(length, generation) =>
      && s.dir.stale.Some? && s.dir.stale.value.synced <= length <= |s.dir.stale.value.data|
      && MayLeave(s.dir, generation)
  }

  /** A crash leaves the generation file as it is, or undoes renames of it that have not been synced. */
  predicate MayLeave(d: Directory, generation: Octets) {
    generation == d.generation || generation in d.past
  }

  function Cut(f: File, length: nat): File
    requires length <= |f.data|
  {
    File(f.inode, f.data[..length], length)
  }

  ghost function Inserting(s: State, e: Event): Answer
    requires e.InsertKey? && Enabled(s, e)
  {
    Insert(s.handles[e.id], s.dir, e.key, e.deadline, e.now, e.io)
  }

  /** The keys an insert leaves resident without the file's word for them. */
  ghost function NewlyFailed(h: Handle, d: Directory, key: Octets, deadline: uint64, now: uint64,
                             io: Outcome): set<Octets> {
    var a := Insert(h, d, key, deadline, now, io);
    if a.inserted && !a.ok then {key}
    else if io.readFails.Some? then Stray(h, d, io.readFails.value)
    else {}
  }

  ghost function Execute(s: State, e: Event): State
    requires Enabled(s, e)
  {
    match e
    case OpenHandle(id, now, io) =>
      var w := Open(s.dir, now, io);
      if w.ok then s.(dir := w.dir, handles := s.handles[id := w.handle], failed := s.failed[id := {}], clock := now)
      else s.(dir := w.dir, clock := now)
    case InsertKey(id, key, deadline, now, _) =>
      var a := Inserting(s, e);
      State(a.dir, s.handles[id := a.handle],
            s.failed[id := s.failed[id] + NewlyFailed(s.handles[id], s.dir, key, deadline, now, e.io)],
            now,
            if a.inserted && a.ok then s.acked[key := deadline] else s.acked)
    case CloseHandle(id) => s.(handles := s.handles - {id}, failed := s.failed - {id})
    case Crash(length, generation) =>
      State(Directory(Cut(s.dir.file, length), generation, {}, None), map[], map[], s.clock, s.acked)
    case RevertingCrash(length, generation) =>
      State(Directory(Cut(s.dir.stale.value, length), generation, {}, None), map[], map[], s.clock, s.acked)
  }

  ghost predicate ValidRun(s: State, events: seq<Event>)
    decreases |events|
  {
    events == [] || (Enabled(s, events[0]) && ValidRun(Execute(s, events[0]), events[1..]))
  }

  ghost function StateAfter(s: State, events: seq<Event>): State
    requires ValidRun(s, events)
    decreases |events|
  {
    if events == [] then s else StateAfter(Execute(s, events[0]), events[1..])
  }
}

/** The retention replay cache as its source writes it: a handle object on a shared directory. */
module RetentionCache {
  import opened Bytes
  import opened RetentionRecord
  import opened RetentionLog
  import opened RetentionMachine

  /** The directory that all handles share; the file lock makes each method call atomic. */
  class Disk {
    var dir: Directory

    constructor (d: Directory)
      ensures dir == d
    {
      dir := d;
    }
  }

  /** One turn of the reading loop: the first line, then the rest. */
  lemma ReadStep(rest: Octets, line: Octets, tail: Octets, f: Reading)
    requires f.ok && NEWLINE !in line && rest == (line + [NEWLINE]) + tail
    ensures BodyLength(rest) == |line| + 1 + BodyLength(tail) && Tail(rest) == Tail(tail)
    ensures Read(rest, f) == Read(tail, AfterLine(f, ReadLine(line)))
  {
    LineThenRest(line, tail, f);
    BodyStep(line + [NEWLINE], tail);
  }

  lemma LineThenRest(record: Octets, tail: Octets, f: Reading)
    requires f.ok && NEWLINE !in record
    ensures IsTerminated(record + [NEWLINE])
    ensures Read(record + [NEWLINE] + tail, f) == Read(tail, AfterLine(f, ReadLine(record)))
  {
    LineReading(record, f);
    ReadResumes(record + [NEWLINE], tail, f);
  }

  lemma BodyStep(line: Octets, tail: Octets)
    requires IsTerminated(line)
    ensures BodyLength(line + tail) == |line| + BodyLength(tail) && Tail(line + tail) == Tail(tail)
  {
    BodyConcat(line, tail);
    TailConcat(line, tail);
  }

  lemma ReadTail(rest: Octets, f: Reading)
    requires NEWLINE !in rest
    ensures BodyLength(rest) == 0 && Tail(rest) == rest && Read(rest, f) == ApplyTail(rest, f)
  {
    assert IndexOf(rest, NEWLINE) == |rest|;
    assert Lines(rest) == [];
    assert Entries(rest) == [];
  }

  /** Reading on from `pos` with state `f` completes the reading that began at `offset` with `start`. */
  ghost predicate Continues(data: Octets, offset: nat, start: Reading, pos: nat, f: Reading)
    requires offset <= |data| && pos <= |data|
  {
    && f.ok && Read(data[pos..], f) == Read(data[offset..], start)
    && pos + BodyLength(data[pos..]) == offset + BodyLength(data[offset..])
    && Tail(data[pos..]) == Tail(data[offset..])
  }

  lemma ContinuesStep(data: Octets, offset: nat, start: Reading, pos: nat, f: Reading, i: nat, next: nat)
    requires offset <= |data| && pos <= |data| && Continues(data, offset, start, pos, f)
    requires i == IndexOf(data[pos..], NEWLINE) && pos + i < |data| && next == pos + i + 1
    ensures var e := ReadLine(data[pos..pos + i]);
            if e.Corrupt? then Read(data[offset..], start) == f.(ok := false)
            else Continues(data, offset, start, next, AfterLine(f, e))
  {
    NextLine(data, pos, i, next);
    ReadStep(data[pos..], data[pos..pos + i], data[next..], f);
    if ReadLine(data[pos..pos + i]).Corrupt? {
      BrokenStays(data[next..], f);
    }
  }

  lemma NextLine(data: Octets, pos: nat, i: nat, next: nat)
    requires pos <= |data| && i == IndexOf(data[pos..], NEWLINE) && pos + i < |data| && next == pos + i + 1
    ensures data[pos..] == (data[pos..pos + i] + [NEWLINE]) + data[next..] && NEWLINE !in data[pos..pos + i]
  {
    assert data[pos..][i] == NEWLINE;
    assert forall j :: 0 <= j < i ==> data[pos..pos + i][j] == data[pos..][j];
  }

  lemma BrokenStays(s: Octets, f: Reading)
    ensures Read(s, f.(ok := false)) == f.(ok := false)
  {
  }

  lemma ContinuesEnd(data: Octets, offset: nat, start: Reading, pos: nat, f: Reading)
    requires offset <= |data| && pos <= |data| && Continues(data, offset, start, pos, f)
    requires NEWLINE !in data[pos..]
    ensures Read(data[offset..], start) == ApplyTail(data[pos..], f)
    ensures offset + BodyLength(data[offset..]) == pos && Tail(data[offset..]) == data[pos..]
  {
    ReadTail(data[pos..], f);
  }

  lemma DeliveredSlice(h: Handle, d: Directory, n: nat, offset: nat, end: nat)
    requires offset == Offset(h, d) && end == offset + Min(n, |d.file.data| - offset)
    ensures d.file.data[..end][offset..] == Delivered(h, d, n)
  {
  }

  class RetentionFileReplayCache {
    const disk: Disk
    var seen: Seen
    var minDeadline: uint64
    var loaded: Option<nat>
    var loadedSize: nat
    var loadedGeneration: uint64
    var closed: bool

    ghost function View(): Handle
      reads this
    {
      Handle(seen, minDeadline, loaded, loadedSize, loadedGeneration)
    }

    constructor (disk: Disk)
      ensures this.disk == disk && View() == FRESH && !closed
    {
      this.disk := disk;
      seen, minDeadline, loaded, loadedSize, loadedGeneration := map[], MAX_U64, None, 0, 0;
      closed := false;
    }

    /** Parses the records of `data` from `offset` on; `consumed` is the offset past the last terminated one. */
    method Consume(data: Octets, offset: nat) returns (consumed: nat, torn: bool, ok: bool)
      requires offset <= |data|
      modifies this`seen, this`minDeadline
      ensures Reading(seen, minDeadline, ok) == Read(data[offset..], Reading(old(seen), old(minDeadline), true))
      ensures ok ==> consumed == offset + BodyLength(data[offset..]) && torn == (Tail(data[offset..]) != [])
    {
      ghost var start := Reading(seen, minDeadline, true);
      consumed, ok := ConsumeLines(data, offset);
      torn := ok && consumed < |data|;
      if ok {
        ContinuesEnd(data, offset, start, consumed, Reading(seen, minDeadline, true));
        if torn {
          ConsumeTail(data[consumed..]);
        }
      }
    }

    /** Stops before a torn tail, or at the first corrupt line. */
    method ConsumeLines(data: Octets, offset: nat) returns (consumed: nat, ok: bool)
      requires offset <= |data|
      modifies this`seen, this`minDeadline
      ensures var start := Reading(old(seen), old(minDeadline), true);
              if ok then consumed <= |data| && NEWLINE !in data[consumed..]
                         && Continues(data, offset, start, consumed, Reading(seen, minDeadline, true))
              else Read(data[offset..], start) == Reading(seen, minDeadline, false)
    {
      consumed, ok := offset, true;
      ghost var start := Reading(seen, minDeadline, true);
      var last := false;
      while !last && consumed < |data|
        invariant offset <= consumed <= |data|
        invariant Continues(data, offset, start, consumed, Reading(seen, minDeadline, true))
        invariant last ==> NEWLINE !in data[consumed..]
        decreases |data| - consumed, !last
      {
        consumed, ok, last := ConsumeNext(data, offset, start, consumed);
        if !ok {
          return;
        }
      }
    }

    /** One turn: the next terminated line, or nothing when only a torn tail is left. */
    method ConsumeNext(data: Octets, ghost offset: nat, ghost start: Reading, pos: nat) returns (next: nat, ok: bool,
        last: bool)
      requires offset <= pos < |data| && Continues(data, offset, start, pos, Reading(seen, minDeadline, true))
      modifies this`seen, this`minDeadline
      ensures if ok then pos <= next <= |data| && Continues(data, offset, start, next, Reading(seen, minDeadline, true))
                         && (if last then NEWLINE !in data[next..] else pos < next)
              else Read(data[offset..], start) == Reading(seen, minDeadline, false)
    {
      var i := FindNewline(data, pos);
      last := pos + i == |data|;
      if last {
        next, ok := pos, true;
      } else {
        next, ok := ConsumeAt(data, offset, start, pos, i);
      }
    }

    method FindNewline(data: Octets, pos: nat) returns (i: nat)
      requires pos <= |data|
      ensures pos + i <= |data| && i == IndexOf(data[pos..], NEWLINE)
      ensures pos + i == |data| ==> NEWLINE !in data[pos..]
    {
      i := IndexOf(data[pos..], NEWLINE);
    }

    method ConsumeAt(data: Octets, ghost offset: nat, ghost start: Reading, pos: nat, i: nat) returns (next: nat,
        ok: bool)
      requires offset <= pos && pos + i < |data| && i == IndexOf(data[pos..], NEWLINE)
      requires Continues(data, offset, start, pos, Reading(seen, minDeadline, true))
      modifies this`seen, this`minDeadline
      ensures next == pos + i + 1
      ensures if ok then Continues(data, offset, start, next, Reading(seen, minDeadline, true))
              else Read(data[offset..], start) == Reading(seen, minDeadline, false)
    {
      next := pos + i + 1;
      ContinuesStep(data, offset, start, pos, Reading(seen, minDeadline, true), i, next);
      ok := ConsumeLine(data[pos..pos + i]);
    }

    /** A torn tail counts when it parses. */
    method ConsumeTail(tail: Octets)
      requires tail != []
      modifies this`seen, this`minDeadline
      ensures Reading(seen, minDeadline, true) == ApplyTail(tail, Reading(old(seen), old(minDeadline), true))
    {
      var record := ParseRecord(tail);
      if record.Some? {
        Note(record.value);
      }
    }

    method ConsumeLine(line: Octets) returns (ok: bool)
      modifies this`seen, this`minDeadline
      ensures ok == !ReadLine(line).Corrupt?
      ensures Reading(seen, minDeadline, ok) == AfterLine(Reading(old(seen), old(minDeadline), true), ReadLine(line))
    {
      if line != [] {
        var record := ParseRecord(line);
        if record.None? {
          return false;
        }
        Note(record.value);
      }
      ok := true;
    }

    method Note(r: Record)
      modifies this`seen, this`minDeadline
      ensures Reading(seen, minDeadline, true) == Remember(Reading(old(seen), old(minDeadline), true), r)
    {
      seen := seen[r.key := r.deadline];
      if r.deadline < minDeadline {
        minDeadline := r.deadline;
      }
    }

    /** Drops every record whose deadline has passed and refreshes the earliest remaining deadline. */
    method ExpireLoaded(now: uint64)
      modifies this`seen, this`minDeadline
      ensures seen == Live(old(seen), now) && minDeadline == Earliest(seen)
    {
      var earliest: uint64 := MAX_U64;
      var kept: Seen := map[];
      var pending := seen;
      while pending != map[]
        invariant pending.Keys <= seen.Keys && kept.Keys !! pending.Keys
        invariant seen == old(seen)
        invariant forall k :: k in pending ==> pending[k] == seen[k]
        invariant forall k :: k in kept ==> k in seen && kept[k] == seen[k] && seen[k] > now
        invariant forall k :: k in seen && seen[k] > now ==> k in kept || k in pending
        invariant IsEarliest(earliest, kept)
        decreases |pending|
      {
        var key :| key in pending;
        var deadline := pending[key];
        var rest := pending - {key};
        assert rest.Keys == pending.Keys - {key};
        pending := rest;
        if deadline > now {
          KeepEarliest(kept, earliest, key, deadline);
          kept := kept[key := deadline];
          earliest := Min(earliest, deadline);
        }
      }
      assert kept == Live(seen, now);
      seen := kept;
      minDeadline := earliest;
      EarliestUnique(earliest, Earliest(seen), seen);
    }

    /** Where to go on reading; a file that is not the one read before is read anew. */
    method Rewind(d: Directory, generation: uint64) returns (offset: nat)
      requires ReadGeneration(d.generation) == Some(generation)
      modifies this`seen, this`minDeadline
      ensures offset == Offset(old(View()), d) && Reading(seen, minDeadline, true) == Start(old(View()), d)
    {
      offset := loadedSize;
      if loaded.None? || generation != loadedGeneration || loaded.value != d.file.inode || |d.file.data| < offset {
        seen, minDeadline, offset := map[], MAX_U64, 0;
      }
    }

    /** Reads what is new in the file, or all of it; `readFails` is where a read error stops the scan. */
    method Load(now: uint64, readFails: Option<nat>) returns (expired: bool, torn: bool, ok: bool)
      modifies this`seen, this`minDeadline, this`loaded, this`loadedSize, this`loadedGeneration
      ensures readFails.Some? ==> !ok && View() == PartialLoad(old(View()), disk.dir, readFails.value)
      ensures readFails.None? ==>
                var l := RetentionMachine.Load(old(View()), disk.dir, now);
                && ok == l.Loaded? && View() == l.handle
                && (ok ==> expired == l.expired && torn == l.torn)
    {
      expired, torn, ok := false, false, false;
      var d := disk.dir;
      var generation := ReadGeneration(d.generation);
      if generation.None? {
        return;
      }
      var offset := Rewind(d, generation.value);
      var consumed;
      if readFails.Some? {
        var end := offset + Min(readFails.value, |d.file.data| - offset);
        DeliveredSlice(old(View()), d, readFails.value, offset, end);
        consumed, torn, ok := Consume(d.file.data[..end], offset);
        ok := false;
        return;
      }
      consumed, torn, ok := Consume(d.file.data, offset);
      if !ok {
        return;
      }
      loaded, loadedSize, loadedGeneration := Some(d.file.inode), consumed, generation.value;
      if minDeadline > now {
        return;
      }
      ExpireLoaded(now);
      expired := true;
    }

    /** The content of the compacted file: one line per resident key, in key order. */
    method WriteLines() returns (data: Octets)
      ensures data == Compacted(seen.Keys, seen)
    {
      data := [];
      var keys := seen.Keys;
      while keys != {}
        invariant keys <= seen.Keys
        invariant data + Compacted(keys, seen) == Compacted(seen.Keys, seen)
        decreases |keys|
      {
        LeastExists(keys);
        var key :| key in keys && forall x :: x in keys ==> LexLeq(key, x);
        LexAntisymmetric(key, Least(keys));
        var line := FormatLine(key, seen[key]);
        Assoc(data, line, Compacted(keys - {key}, seen));
        data := data + line;
        keys := keys - {key};
      }
    }

    /** Swaps the compacted file in behind a new, already durable generation. */
    method Rewrite(io: Outcome) returns (ok: bool)
      modifies this`loaded, this`loadedSize, this`loadedGeneration, disk
      ensures var w := Compact(old(View()), old(disk.dir), io);
              View() == w.handle && disk.dir == w.dir && ok == w.ok
    {
      var data := WriteLines();
      var d := disk.dir;
      if loadedGeneration == MAX_U64 || io.stage == BeforeGeneration {
        return false;
      }
      var next := loadedGeneration + 1;
      disk.dir := d.(generation := EncodeBE(next, GENERATION_OCTETS), past := d.past + {d.generation});
      if io.stage == GenerationUnsynced {
        return false;
      }
      disk.dir := disk.dir.(past := {}, stale := None);
      if io.stage == AfterGeneration {
        return false;
      }
      var stale := if io.stage == Done then None else Some(d.file);
      disk.dir := Directory(File(io.inode, data, |data|), EncodeBE(next, GENERATION_OCTETS), {}, stale);
      loaded, loadedSize, loadedGeneration := None, 0, next;
      return io.stage == Done;
    }

    method Append(key: Octets, deadline: uint64, io: Outcome) returns (ok: bool)
      modifies this`loadedSize, disk
      ensures var w := RetentionMachine.Append(old(View()), old(disk.dir), FormatLine(key, deadline), io);
              View() == w.handle && disk.dir == w.dir && ok == w.ok
    {
      var d := disk.dir;
      var line := FormatLine(key, deadline);
      if io.appendFails.Some? {
        var n := Min(io.appendFails.value, |line|);
        disk.dir := d.(file := d.file.(data := d.file.data + line[..n]));
        return false;
      }
      var data := d.file.data + line;
      disk.dir := d.(file := d.file.(data := data, synced := |data|));
      loadedSize := loadedSize + |line|;
      return true;
    }

    method InsertIfAbsentUntil(key: Octets, deadline: uint64, now: uint64, io: Outcome)
      returns (inserted: bool, ok: bool)
      modifies this, disk
      ensures !old(closed) ==>
                var a := Insert(old(View()), old(disk.dir), key, deadline, now, io);
                View() == a.handle && disk.dir == a.dir && inserted == a.inserted && ok == a.ok
      ensures old(closed) ==> !inserted && !ok && View() == old(View()) && disk.dir == old(disk.dir)
      ensures closed == old(closed)
    {
      inserted, ok := false, false;
      if now == 0 || deadline == 0 || deadline <= now || key == [] || closed || io.loadFails {
        return;
      }
      var expired, torn;
      expired, torn, ok := Load(now, io.readFails);
      if !ok || key in seen {
        return;
      }
      seen := seen[key := deadline];
      if deadline < minDeadline {
        minDeadline := deadline;
      }
      inserted := true;
      if expired || torn {
        ok := Rewrite(io);
      } else {
        ok := Append(key, deadline, io);
      }
    }

    method Has(key: Octets) returns (found: bool)
      ensures found <==> !closed && key in seen
    {
      found := !closed && key in seen;
    }

    method Close()
      modifies this
      ensures closed && seen == map[] && disk.dir == old(disk.dir)
    {
      closed := true;
      seen := map[];
    }
  }

  /** Opens a handle: loads the file, repairs it when it is torn or holds expired records. */
  method OpenCache(disk: Disk, now: uint64, io: Outcome) returns (cache: RetentionFileReplayCache, ok: bool)
    modifies disk
    ensures var w := Open(old(disk.dir), now, io);
            ok == w.ok && disk.dir == w.dir && (ok ==> cache.View() == w.handle && !cache.closed && cache.disk == disk)
    ensures fresh(cache)
  {
    cache := new RetentionFileReplayCache(disk);
    if now == 0 || io.loadFails {
      return cache, false;
    }
    var expired, torn, loaded := cache.Load(now, io.readFails);
    if !loaded {
      return cache, false;
    }
    if expired || torn {
      ok := cache.Rewrite(io);
    } else {
      ok := io.stage == Done;
      if ok {
        disk.dir := disk.dir.(past := {}, stale := None);
      }
    }
  }

  lemma KeepEarliest(m: Seen, low: uint64, key: Octets, deadline: uint64)
    requires IsEarliest(low, m) && key !in m
    ensures IsEarliest(Min(low, deadline), m[key := deadline])
  {
    var n := m[key := deadline];
    assert key in n && n[key] == deadline;
    if low <= deadline && low != MAX_U64 {
      var k :| k in m && m[k] == low;
      assert k in n && n[k] == low;
    }
  }

  lemma EarliestUnique(a: uint64, b: uint64, m: Seen)
    requires IsEarliest(a, m) && IsEarliest(b, m)
    ensures a == b
  {
  }
}

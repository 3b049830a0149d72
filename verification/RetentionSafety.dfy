/** At most one admission per retained key, over every run of the retention cache. */
module RetentionSafety {
  import opened Bytes
  import opened RetentionRecord
  import opened RetentionLog
  import opened RetentionMachine

  // ---------- invariant ----------

  /** Every acknowledged key that is still live is recorded in `b`, for at least as long. */
  ghost predicate Keeps(b: Octets, acked: Seen, clock: nat) {
    forall k :: k in acked && acked[k] > clock ==> WellFormed(b) && k in Records(b) && Records(b)[k] >= acked[k]
  }

  ghost predicate Agrees(k: Octets, seen: Seen, file: Seen, failed: set<Octets>, clock: nat) {
    && (k in file && file[k] > clock ==> k in seen && (seen[k] == file[k] || (k in failed && seen[k] > file[k])))
    && (k in seen && seen[k] > clock ==> (k in file && file[k] == seen[k]) || k in failed)
  }

  /** What a handle holds agrees with the part of the file it has consumed, except where the rest speaks. */
  ghost predicate Follows(h: Handle, data: Octets, failed: set<Octets>, clock: nat)
    requires h.loadedSize <= |data|
  {
    var body := data[..h.loadedSize];
    var rest := data[h.loadedSize..];
    && IsTerminated(body) && WellFormed(body)
    && forall k :: k !in Records(rest) ==> Agrees(k, h.seen, Records(body), failed, clock)
  }

  ghost predicate Sound(h: Handle) {
    LowerBound(h.minDeadline, h.seen) && Writable(h.seen)
  }

  /** The first `m` octets of a tail parse, if at all, to its own key or to an entry that never expires. */
  predicate SanePiece(tail: Octets, m: nat)
    requires m <= |tail|
  {
    ParseRecord(tail[..m]).Some? && ParseRecord(tail[..m]).value.deadline != MAX_U64 ==>
      ParseRecord(tail).Some? && ParseRecord(tail).value.key == ParseRecord(tail[..m]).value.key
  }

  predicate SaneTail(data: Octets) {
    forall m :: 0 <= m <= |Tail(data)| ==> SanePiece(Tail(data), m)
  }

  /** What every file looks like that a handle has been opened on. */
  predicate CleanFile(data: Octets) {
    WellFormed(data) && SaneTail(data)
  }

  ghost predicate HandleOk(h: Handle, d: Directory, failed: set<Octets>, clock: nat) {
    && Sound(h)
    && ReadGeneration(d.generation).Some? && h.loadedGeneration <= ReadGeneration(d.generation).value
    && (h.loaded.Some? && ReadGeneration(d.generation).value == h.loadedGeneration ==>
          Current(h, d) && Follows(h, d.file.data, failed, clock))
  }

  ghost predicate FileOk(f: File, acked: Seen, clock: nat) {
    && f.synced <= |f.data|
    && forall n :: f.synced <= n <= |f.data| ==> Keeps(f.data[..n], acked, clock)
  }

  ghost predicate Inv(s: State) {
    && s.handles.Keys == s.failed.Keys
    && FileOk(s.dir.file, s.acked, s.clock)
    && (s.handles != map[] ==> CleanFile(s.dir.file.data))
    && forall id :: id in s.handles ==> HandleOk(s.handles[id], s.dir, s.failed[id], s.clock)
  }

  // ---------- load ----------

  /**
   * After a load the resident map is the live part of a parse of the whole file, plus at most keys
   * of this handle's own failed inserts; every resident record is live.
   */
  ghost predicate Exact(seen: Seen, data: Octets, failed: set<Octets>, now: nat) {
    && (forall k :: k in Live(Records(data), now) ==>
          k in seen && (seen[k] == Records(data)[k] || (k in failed && seen[k] > Records(data)[k])))
    && (forall k :: k in seen ==> seen[k] > now && ((k in Records(data) && seen[k] == Records(data)[k]) || k in failed))
  }

  lemma WholeFile(data: Octets, n: nat)
    requires n <= |data|
    ensures data[..n] + data[n..] == data
  {
  }

  /** The resident map before expiry: an incremental load reads what a full load would. */
  lemma ReadAgrees(h: Handle, d: Directory, failed: set<Octets>, clock: nat)
    requires HandleOk(h, d, failed, clock) || h == FRESH
    ensures var offset := Offset(h, d);
            var r := Read(d.file.data[offset..], Start(h, d));
            && LowerBound(r.minDeadline, r.seen) && Writable(r.seen)
            && r.ok == WellFormed(d.file.data)
            && (r.ok ==>
                  && offset + BodyLength(d.file.data[offset..]) == BodyLength(d.file.data)
                  && Tail(d.file.data[offset..]) == Tail(d.file.data)
                  && forall k :: Agrees(k, r.seen, Records(d.file.data), failed, clock))
  {
    var data := d.file.data;
    if Current(h, d) {
      var body, rest := data[..h.loadedSize], data[h.loadedSize..];
      var f := Reading(h.seen, h.minDeadline, true);
      WholeFile(data, h.loadedSize);
      ReadMerges(rest, f);
      ReadKeepsLowerBound(rest, f);
      ReadIsWritable(rest, f);
      RecordsConcat(body, rest);
      BodyConcat(body, rest);
      TailConcat(body, rest);
      forall k ensures Agrees(k, Read(rest, f).seen, Records(data), failed, clock) {
        if k !in Records(rest) {
          assert Agrees(k, h.seen, Records(body), failed, clock);
        }
      }
    } else {
      assert data[0..] == data;
      ReadKeepsLowerBound(data, NOTHING);
      ReadIsWritable(data, NOTHING);
    }
  }

  lemma SettleIsExact(h: Handle, torn: bool, data: Octets, failed: set<Octets>, clock: nat, now: nat)
    requires Sound(h) && clock <= now
    requires forall k :: Agrees(k, h.seen, Records(data), failed, clock)
    ensures Exact(Settle(h, torn, now).handle.seen, data, failed, now)
    ensures Sound(Settle(h, torn, now).handle)
  {
    var seen := Settle(h, torn, now).handle.seen;
    forall k | k in Live(Records(data), now)
      ensures k in seen && (seen[k] == Records(data)[k] || (k in failed && seen[k] > Records(data)[k]))
    {
      assert Agrees(k, h.seen, Records(data), failed, clock);
    }
    forall k | k in seen
      ensures seen[k] > now && ((k in Records(data) && seen[k] == Records(data)[k]) || k in failed)
    {
      assert Agrees(k, h.seen, Records(data), failed, clock);
    }
  }

  lemma LoadIsExact(h: Handle, d: Directory, failed: set<Octets>, clock: nat, now: nat)
    requires HandleOk(h, d, failed, clock) || h == FRESH
    requires clock <= now
    requires Load(h, d, now).Loaded?
    ensures var l := Load(h, d, now);
            && Exact(l.handle.seen, d.file.data, failed, now)
            && Sound(l.handle)
            && WellFormed(d.file.data)
            && l.handle.loadedSize == BodyLength(d.file.data) && l.torn == (Tail(d.file.data) != [])
            && Current(l.handle, d)
  {
    ReadAgrees(h, d, failed, clock);
    var rest := d.file.data[Offset(h, d)..];
    var r := Read(rest, Start(h, d));
    var h1 := Handle(r.seen, r.minDeadline, Some(d.file.inode), Offset(h, d) + BodyLength(rest),
                     ReadGeneration(d.generation).value);
    SettleIsExact(h1, Tail(rest) != [], d.file.data, failed, clock, now);
  }

  /** A handle that has just loaded follows the file. */
  lemma LoadedFollows(h: Handle, d: Directory, failed: set<Octets>, now: nat)
    requires h.loadedSize == BodyLength(d.file.data) && WellFormed(d.file.data)
    requires Exact(h.seen, d.file.data, failed, now)
    ensures Follows(h, d.file.data, failed, now)
  {
    var data := d.file.data;
    var body, rest := data[..h.loadedSize], data[h.loadedSize..];
    WholeFile(data, h.loadedSize);
    BodyIsTerminated(data);
    BodyDecides(data);
    RecordsConcat(body, rest);
    forall k | k !in Records(rest) ensures Agrees(k, h.seen, Records(body), failed, now) {
      assert k in Records(data) <==> k in Records(body);
    }
  }

  // ---------- steps ----------

  lemma TimePasses(h: Handle, d: Directory, failed: set<Octets>, more: set<Octets>, clock: nat, now: nat)
    requires HandleOk(h, d, failed, clock) && clock <= now && failed <= more
    ensures HandleOk(h, d, more, now)
  {
    if h.loaded.Some? && ReadGeneration(d.generation).value == h.loadedGeneration {
      var body, rest := d.file.data[..h.loadedSize], d.file.data[h.loadedSize..];
      forall k | k !in Records(rest) ensures Agrees(k, h.seen, Records(body), more, now) {
        assert Agrees(k, h.seen, Records(body), failed, clock);
      }
    }
  }

  lemma AppendKeepsFollows(h: Handle, data: Octets, x: Octets, failed: set<Octets>, clock: nat)
    requires h.loadedSize <= |data| && Follows(h, data, failed, clock) && IsTerminated(data) && WellFormed(data)
    ensures Follows(h, data + x, failed, clock)
  {
    var body, rest := data[..h.loadedSize], data[h.loadedSize..];
    WholeFile(data, h.loadedSize);
    RecordsConcat(body, rest);
    assert IsTerminated(rest);
    assert (data + x)[..h.loadedSize] == body;
    assert (data + x)[h.loadedSize..] == rest + x;
    RecordsConcat(rest, x);
    forall k | k !in Records(rest + x) ensures Agrees(k, h.seen, Records(body), failed, clock) {
      assert k !in Records(rest);
    }
  }

  /** Octets appended to a clean file leave every other handle in step with it. */
  lemma AppendKeepsHandle(h: Handle, d: Directory, x: Octets, synced: nat, failed: set<Octets>, clock: nat)
    requires HandleOk(h, d, failed, clock)
    requires IsTerminated(d.file.data) && WellFormed(d.file.data)
    ensures HandleOk(h, d.(file := d.file.(data := d.file.data + x, synced := synced)), failed, clock)
  {
    if h.loaded.Some? && ReadGeneration(d.generation).value == h.loadedGeneration {
      AppendKeepsFollows(h, d.file.data, x, failed, clock);
    }
  }

  /** Any part of an appended line keeps every acknowledged record readable, wherever a crash cuts it. */
  lemma AppendKeepsFile(f: File, key: Octets, deadline: uint64, n: nat, acked: Seen, now: nat)
    requires FileOk(f, acked, now) && IsTerminated(f.data) && WellFormed(f.data)
    requires key != [] && deadline > 0 && n <= |FormatLine(key, deadline)|
    requires key in acked ==> acked[key] <= now
    ensures FileOk(f.(data := f.data + FormatLine(key, deadline)[..n]), acked, now)
  {
    var line := FormatLine(key, deadline);
    var data := f.data + line[..n];
    assert f.data[..|f.data|] == f.data;
    forall m | f.synced <= m <= |data| ensures Keeps(data[..m], acked, now) {
      if m <= |f.data| {
        assert data[..m] == f.data[..m];
      } else {
        var j := m - |f.data|;
        assert data[..m] == f.data + line[..j];
        forall k | k in acked && acked[k] > now
          ensures WellFormed(data[..m]) && k in Records(data[..m]) && Records(data[..m])[k] >= acked[k]
        {
          TornAppend(f.data, key, deadline, j, k);
        }
      }
    }
  }

  /** A synced line: the new key joins the acknowledged ones. */
  lemma AppendAcknowledges(f: File, key: Octets, deadline: uint64, acked: Seen, now: nat)
    requires FileOk(f, acked, now) && IsTerminated(f.data) && WellFormed(f.data)
    requires key != [] && deadline > 0
    ensures var data := f.data + FormatLine(key, deadline);
            FileOk(f.(data := data, synced := |data|), acked[key := deadline], now)
  {
    AppendedLine(f.data, key, deadline);
    WholeFileKeeps(f, acked, now);
    RecordAdds(f.data, f.data + FormatLine(key, deadline), key, deadline, acked, now);
    SyncedKeeps(f.inode, f.data + FormatLine(key, deadline), acked[key := deadline], now);
  }

  lemma WholeFileKeeps(f: File, acked: Seen, now: nat)
    requires FileOk(f, acked, now)
    ensures Keeps(f.data, acked, now)
  {
    assert f.data[..|f.data|] == f.data;
  }

  lemma RecordAdds(data: Octets, more: Octets, key: Octets, deadline: uint64, acked: Seen, now: nat)
    requires Keeps(data, acked, now) && WellFormed(more) && Records(more) == Records(data)[key := deadline]
    ensures Keeps(more, acked[key := deadline], now)
  {
  }

  lemma SyncedKeeps(inode: nat, data: Octets, acked: Seen, now: nat)
    requires Keeps(data, acked, now)
    ensures FileOk(File(inode, data, |data|), acked, now)
  {
    forall n | |data| <= n <= |data| ensures Keeps(data[..n], acked, now) {
      assert data[..n] == data;
    }
  }

  lemma CompactedReads(seen: Seen)
    requires Writable(seen)
    ensures var next := Compacted(seen.Keys, seen);
            IsTerminated(next) && WellFormed(next) && Records(next) == seen
  {
    CompactedRoundTrip(seen.Keys, seen);
    assert Restrict(seen, seen.Keys) == seen;
  }

  /** A whole, synced file keeps what its records keep. */
  lemma SyncedFileKeeps(inode: nat, data: Octets, m: Seen, acked: Seen, now: nat)
    requires WellFormed(data) && Records(data) == m
    requires forall k :: k in acked && acked[k] > now ==> k in m && m[k] >= acked[k]
    ensures FileOk(File(inode, data, |data|), acked, now)
  {
    SyncedKeeps(inode, data, acked, now);
  }

  lemma FileTimePasses(f: File, acked: Seen, clock: nat, now: nat)
    requires FileOk(f, acked, clock) && clock <= now
    ensures FileOk(f, acked, now) && Keeps(f.data, acked, now)
  {
    assert f.data[..|f.data|] == f.data;
    forall n | f.synced <= n <= |f.data| ensures Keeps(f.data[..n], acked, now) {
      assert Keeps(f.data[..n], acked, clock);
    }
  }

  /** A handle that has just loaded, with one more resident key. */
  function WithKey(h: Handle, key: Octets, deadline: uint64): Handle {
    h.(seen := h.seen[key := deadline], minDeadline := Min(h.minDeadline, deadline))
  }

  /** A handle that has just loaded and reported an error about `key` afterwards. */
  lemma ResidentFollows(h: Handle, d: Directory, failed: set<Octets>, now: nat, key: Octets, deadline: uint64)
    requires Current(h, d) && Sound(h) && WellFormed(d.file.data)
    requires h.loadedSize == BodyLength(d.file.data)
    requires Exact(h.seen, d.file.data, failed, now) && key !in h.seen && key != [] && deadline > 0
    ensures HandleOk(h, d, failed, now)
    ensures HandleOk(WithKey(h, key, deadline), d, failed + {key}, now)
  {
    LoadedFollows(h, d, failed, now);
    var g := WithKey(h, key, deadline);
    var body, rest := d.file.data[..h.loadedSize], d.file.data[h.loadedSize..];
    forall k | k !in Records(rest) ensures Agrees(k, g.seen, Records(body), failed + {key}, now) {
      assert Agrees(k, h.seen, Records(body), failed, now);
    }
  }

  /** A compaction of a handle that has just loaded; once it is complete the handle forgets what it holds. */
  lemma CompactKeepsHandle(h: Handle, d: Directory, io: Outcome, failed: set<Octets>, less: set<Octets>, now: nat)
    requires HandleOk(h, d, failed, now) && Current(h, d)
    ensures var w := Compact(h, d, io);
            HandleOk(w.handle, w.dir, failed, now) && (w.ok ==> HandleOk(w.handle, w.dir, less, now))
  {
    if h.loadedGeneration < MAX_U64 {
      GenerationRoundTrip(h.loadedGeneration + 1);
    }
  }

  /** The new file keeps what the handle holds. `acked` may already count the inserted key. */
  lemma CompactKeeps(h: Handle, d: Directory, io: Outcome, acked: Seen, now: nat)
    requires Sound(h)
    requires forall k :: k in acked && acked[k] > now ==> k in h.seen && h.seen[k] >= acked[k]
    ensures var w := Compact(h, d, io);
            && (w.dir.file == d.file || FileOk(w.dir.file, acked, now))
            && (w.ok ==> FileOk(w.dir.file, acked, now))
  {
    CompactedReads(h.seen);
    SyncedFileKeeps(io.inode, Compacted(h.seen.Keys, h.seen), h.seen, acked, now);
  }

  lemma CompactKeepsOthers(h: Handle, d: Directory, io: Outcome, g: Handle, failed: set<Octets>, now: nat)
    requires HandleOk(g, d, failed, now) && Current(h, d)
    ensures HandleOk(g, Compact(h, d, io).dir, failed, now)
  {
    if h.loadedGeneration < MAX_U64 {
      GenerationRoundTrip(h.loadedGeneration + 1);
    }
  }

  /** A handle that owns the last line of a file has consumed all of it. */
  lemma GrownFollows(h: Handle, data: Octets, all: Octets, size: nat, key: Octets, deadline: uint64,
                     failed: set<Octets>, now: nat)
    requires Exact(h.seen, data, failed, now) && key !in h.seen && size == |all|
    requires IsTerminated(all) && WellFormed(all) && Records(all) == Records(data)[key := deadline]
    ensures Follows(WithKey(h, key, deadline).(loadedSize := size), all, failed, now)
  {
    var g := WithKey(h, key, deadline);
    forall k ensures Agrees(k, g.seen, Records(all), failed, now) {
      AppendedAgrees(h.seen, data, Records(all), key, deadline, failed, now, k);
    }
    WholeFollows(g.(loadedSize := size), all, failed, now);
  }

  lemma AppendedAgrees(seen: Seen, data: Octets, file: Seen, key: Octets, deadline: uint64, failed: set<Octets>,
                       now: nat, k: Octets)
    requires Exact(seen, data, failed, now) && key !in seen && file == Records(data)[key := deadline]
    ensures Agrees(k, seen[key := deadline], file, failed, now)
  {
    assert k in Records(data) && Records(data)[k] > now <==> k in Live(Records(data), now);
  }

  lemma WholeFollows(h: Handle, data: Octets, failed: set<Octets>, now: nat)
    requires IsTerminated(data) && WellFormed(data) && h.loadedSize == |data|
    requires forall k :: Agrees(k, h.seen, Records(data), failed, now)
    ensures Follows(h, data, failed, now)
  {
    assert data[..|data|] == data && data[|data|..] == [];
  }

  lemma FailedAppendKeeps(h: Handle, d: Directory, key: Octets, deadline: uint64, part: Octets, failed: set<Octets>,
                          now: nat)
    requires JustLoaded(h, d, failed, now) && IsTerminated(d.file.data) && key !in h.seen && key != [] && deadline > 0
    ensures HandleOk(WithKey(h, key, deadline), d.(file := d.file.(data := d.file.data + part)), failed + {key}, now)
  {
    ResidentFollows(h, d, failed, now, key, deadline);
    AppendKeepsHandle(WithKey(h, key, deadline), d, part, d.file.synced, failed + {key}, now);
  }

  lemma GrownHandle(h: Handle, d: Directory, all: Octets, size: nat, key: Octets, deadline: uint64,
                    failed: set<Octets>, now: nat)
    requires Current(h, d) && Sound(h) && Exact(h.seen, d.file.data, failed, now)
    requires key !in h.seen && key != [] && deadline > 0 && size == |all|
    requires IsTerminated(all) && WellFormed(all) && Records(all) == Records(d.file.data)[key := deadline]
    ensures HandleOk(WithKey(h, key, deadline).(loadedSize := size),
                     d.(file := d.file.(data := all, synced := |all|)), failed, now)
  {
    GrownFollows(h, d.file.data, all, size, key, deadline, failed, now);
    assert Sound(WithKey(h, key, deadline));
  }

  // ---------- insert ----------

  /** A load that meets a corrupt record changes nothing the invariant relies on. */
  lemma FailedLoadKeeps(h: Handle, d: Directory, failed: set<Octets>, clock: nat, now: nat)
    requires HandleOk(h, d, failed, clock) && clock <= now
    requires Load(h, d, now).LoadFailed?
    ensures HandleOk(Load(h, d, now).handle, d, failed, now)
  {
    ReadAgrees(h, d, failed, clock);
    TimePasses(h, d, failed, failed, clock, now);
    if Current(h, d) {
      var body, rest := d.file.data[..h.loadedSize], d.file.data[h.loadedSize..];
      var f := Reading(h.seen, h.minDeadline, true);
      ReadMerges(rest, f);
      forall k | k !in Records(rest) ensures Agrees(k, Read(rest, f).seen, Records(body), failed, now) {
        assert Agrees(k, h.seen, Records(body), failed, now);
      }
    }
  }

  lemma TailReads(tail: Octets, f: Reading)
    requires NEWLINE !in tail
    ensures Read(tail, f) == ApplyTail(tail, f)
  {
    assert IndexOf(tail, NEWLINE) == |tail|;
    assert Lines(tail) == [];
    assert Entries(tail) == [];
  }

  /** Reading on from a whole number of lines loses none of their records. */
  lemma BodyRecords(body: Octets, rest: Octets, k: Octets)
    requires IsTerminated(body) && WellFormed(body + rest) && k in Records(body)
    ensures k in Records(body + rest)
  {
    var r := Read(body, NOTHING);
    ReadResumes(body, rest, NOTHING);
    if r.ok {
      ReadMerges(rest, r);
    }
  }

  lemma TailAdds(body: Octets, tail: Octets, k: Octets)
    requires IsTerminated(body) && NEWLINE !in tail && k in Records(body + tail)
    ensures k in Records(body) || (ParseRecord(tail).Some? && k == ParseRecord(tail).value.key)
  {
    ReadResumes(body, tail, NOTHING);
    TailReads(tail, Read(body, NOTHING));
  }

  lemma PartsRecord(body: Octets, tail: Octets, q: Octets, k: Octets)
    requires IsTerminated(body) && NEWLINE !in tail && k in Records(body + tail) && WellFormed(body + (tail + q))
    ensures k in Records(body + (tail + q)) || (ParseRecord(tail).Some? && k == ParseRecord(tail).value.key)
  {
    TailAdds(body, tail, k);
    if k in Records(body) {
      BodyRecords(body, tail + q, k);
    }
  }

  lemma BodyAndTail(p: Octets, q: Octets)
    ensures IsTerminated(p[..BodyLength(p)]) && NEWLINE !in Tail(p)
    ensures p[..BodyLength(p)] + Tail(p) == p && p[..BodyLength(p)] + (Tail(p) + q) == p + q
  {
    BodyIsTerminated(p);
    WholeFile(p, BodyLength(p));
  }

  /** What the whole lines of a prefix record, the whole text records too. */
  lemma PrefixRecords(p: Octets, q: Octets, k: Octets)
    requires k in Records(p) && WellFormed(p + q)
    ensures k in Records(p + q) || (ParseRecord(Tail(p)).Some? && k == ParseRecord(Tail(p)).value.key)
  {
    BodyAndTail(p, q);
    PartsRecord(p[..BodyLength(p)], Tail(p), q, k);
  }

  /** The line that a cut falls into parses; a piece of it parses to its key or to a permanent entry. */
  lemma CutLine(p: Octets, q: Octets)
    requires WellFormed(p + q) && SaneTail(p + q) && ParseRecord(Tail(p)).Some?
    ensures var r := ParseRecord(Tail(p)).value; r.deadline == MAX_U64 || r.key in Records(p + q)
  {
    var body, tail := p[..BodyLength(p)], Tail(p);
    BodyAndTail(p, q);
    var r := Read(body, NOTHING);
    ReadResumes(body, tail + q, NOTHING);
    TailConcat(body, tail + q);
    RestHasKey(tail, q, r);
  }

  lemma RestHasKey(tail: Octets, q: Octets, f: Reading)
    requires NEWLINE !in tail && ParseRecord(tail).Some? && Read(tail + q, f).ok
    requires SaneTail(tail + q)
    ensures var r := ParseRecord(tail).value; r.deadline == MAX_U64 || r.key in Read(tail + q, f).seen
  {
    var i := IndexOf(q, NEWLINE);
    if i == |q| {
      OpenRestHasKey(tail, q, f);
    } else {
      assert q == (q[..i] + [NEWLINE]) + q[i + 1..];
      LineHasKey(tail, q[..i], q[i + 1..], tail + q, f);
    }
  }

  /** The cut line is the unterminated tail. */
  lemma OpenRestHasKey(tail: Octets, q: Octets, f: Reading)
    requires NEWLINE !in tail && NEWLINE !in q && ParseRecord(tail).Some? && SaneTail(tail + q) && Read(tail + q, f).ok
    ensures var r := ParseRecord(tail).value; r.deadline == MAX_U64 || r.key in Read(tail + q, f).seen
  {
    assert NEWLINE !in tail + q;
    TailReads(tail + q, f);
    assert Tail(tail + q) == tail + q by {
      assert IndexOf(tail + q, NEWLINE) == |tail + q|;
    }
    assert (tail + q)[..|tail|] == tail;
    assert SanePiece(tail + q, |tail|);
  }

  /** The cut line is a whole one. */
  lemma LineHasKey(tail: Octets, more: Octets, rest: Octets, all: Octets, f: Reading)
    requires NEWLINE !in tail && NEWLINE !in more && ParseRecord(tail).Some?
    requires all == tail + ((more + [NEWLINE]) + rest) && Read(all, f).ok
    ensures var r := ParseRecord(tail).value; r.deadline == MAX_U64 || r.key in Read(all, f).seen
  {
    var record := tail + more;
    Assoc(tail, more + [NEWLINE], rest);
    Assoc(tail, more, [NEWLINE]);
    LineReading(record, f);
    ReadResumes(record + [NEWLINE], rest, f);
    ReadMerges(rest, Read(record + [NEWLINE], f));
    assert record[..|tail|] == tail;
    CutRecord(record, |tail|);
  }

  /** A read error in mid-scan adds at most the key that the cut line was taken for, as an entry that never expires. */
  lemma PartialLoadKeeps(h: Handle, d: Directory, n: nat, failed: set<Octets>, clock: nat, now: nat)
    requires HandleOk(h, d, failed, clock) && clock <= now && CleanFile(d.file.data)
    ensures HandleOk(PartialLoad(h, d, n), d, failed + Stray(h, d, n), now)
  {
    TimePasses(h, d, failed, failed + Stray(h, d, n), clock, now);
    ReadKeepsLowerBound(Delivered(h, d, n), Start(h, d));
    ReadIsWritable(Delivered(h, d, n), Start(h, d));
    if Current(h, d) {
      PartialFollows(h, d, n, failed, now);
    }
  }

  lemma PartialFollows(h: Handle, d: Directory, n: nat, failed: set<Octets>, now: nat)
    requires Current(h, d) && CleanFile(d.file.data) && Follows(h, d.file.data, failed, now)
    ensures Follows(PartialLoad(h, d, n), d.file.data, failed + Stray(h, d, n), now)
  {
    var body, rest := d.file.data[..h.loadedSize], d.file.data[h.loadedSize..];
    var part, f := Delivered(h, d, n), Start(h, d);
    WholeFile(d.file.data, h.loadedSize);
    WholeFile(rest, |part|);
    RecordsConcat(body, rest);
    TailConcat(body, rest);
    ReadMerges(part, f);
    forall k | k !in Records(rest) ensures Agrees(k, Read(part, f).seen, Records(body), failed + Stray(h, d, n), now) {
      assert Agrees(k, h.seen, Records(body), failed, now);
      if k in Records(part) {
        OnlyTheStrayIsNew(part, rest[|part|..], k);
      }
    }
  }

  /** What a cut scan holds and the whole does not is the key of its cut line, never to expire. */
  lemma OnlyTheStrayIsNew(p: Octets, q: Octets, k: Octets)
    requires CleanFile(p + q) && k in Records(p) && k !in Records(p + q)
    ensures ParseRecord(Tail(p)) == Some(Record(k, MAX_U64)) && Records(p)[k] == MAX_U64
  {
    PrefixRecords(p, q, k);
    CutLine(p, q);
    PrefixWellFormed(p, q);
  }

  lemma PrefixWellFormed(p: Octets, q: Octets)
    requires WellFormed(p + q)
    ensures WellFormed(p)
  {
    var body, tail := p[..BodyLength(p)], Tail(p);
    BodyAndTail(p, q);
    ReadResumes(body, tail, NOTHING);
    ReadResumes(body, tail + q, NOTHING);
    TailReads(tail, Read(body, NOTHING));
  }

  /** What a load establishes about the handle and its file. */
  ghost predicate JustLoaded(h: Handle, d: Directory, failed: set<Octets>, now: nat) {
    && Current(h, d) && Sound(h) && WellFormed(d.file.data)
    && h.loadedSize == BodyLength(d.file.data)
    && Exact(h.seen, d.file.data, failed, now)
  }

  lemma ResidentKeepsAcked(h: Handle, d: Directory, failed: set<Octets>, acked: Seen, now: nat)
    requires JustLoaded(h, d, failed, now) && Keeps(d.file.data, acked, now)
    ensures forall k :: k in acked && acked[k] > now ==> k in h.seen && h.seen[k] >= acked[k]
  {
    forall k | k in acked && acked[k] > now ensures k in h.seen && h.seen[k] >= acked[k] {
      assert k in Live(Records(d.file.data), now);
    }
  }

  lemma InsertByCompaction(h: Handle, d: Directory, failed: set<Octets>, key: Octets, deadline: uint64, now: nat,
                           io: Outcome, acked: Seen)
    requires JustLoaded(h, d, failed, now) && FileOk(d.file, acked, now)
    requires key !in h.seen && key != [] && deadline > 0
    ensures var w := Compact(WithKey(h, key, deadline), d, io);
            && HandleOk(w.handle, w.dir, if w.ok then failed else failed + {key}, now)
            && FileOk(w.dir.file, if w.ok then acked[key := deadline] else acked, now)
  {
    var g := WithKey(h, key, deadline);
    FileTimePasses(d.file, acked, now, now);
    ResidentFollows(h, d, failed, now, key, deadline);
    ResidentKeepsAcked(h, d, failed, acked, now);
    CompactKeepsHandle(g, d, io, failed + {key}, failed, now);
    CompactKeeps(g, d, io, acked, now);
    CompactKeeps(g, d, io, acked[key := deadline], now);
  }

  /** The line adds the record of the key to the file. */
  predicate Adds(data: Octets, line: Octets, key: Octets, deadline: uint64) {
    IsTerminated(data + line) && WellFormed(data + line) && Records(data + line) == Records(data)[key := deadline]
  }

  lemma AppendKeepsOwn(h: Handle, d: Directory, failed: set<Octets>, key: Octets, deadline: uint64, line: Octets,
                       now: nat, io: Outcome)
    requires JustLoaded(h, d, failed, now) && IsTerminated(d.file.data) && h.loadedSize == |d.file.data|
    requires key !in h.seen && key != [] && deadline > 0 && Adds(d.file.data, line, key, deadline)
    ensures var w := Append(WithKey(h, key, deadline), d, line, io);
            HandleOk(w.handle, w.dir, if w.ok then failed else failed + {key}, now)
  {
    if io.appendFails.Some? {
      FailedAppendKeeps(h, d, key, deadline, line[..Min(io.appendFails.value, |line|)], failed, now);
    } else {
      GrownHandle(h, d, d.file.data + line, WithKey(h, key, deadline).loadedSize + |line|, key, deadline, failed, now);
    }
  }

  lemma AppendKeepsAcked(h: Handle, d: Directory, key: Octets, deadline: uint64, line: Octets, now: nat, io: Outcome,
                         acked: Seen)
    requires WellFormed(d.file.data) && IsTerminated(d.file.data) && FileOk(d.file, acked, now)
    requires (key in acked ==> acked[key] <= now) && key != [] && deadline > 0 && line == FormatLine(key, deadline)
    ensures var w := Append(h, d, line, io);
            FileOk(w.dir.file, if w.ok then acked[key := deadline] else acked, now)
  {
    if io.appendFails.Some? {
      AppendKeepsFile(d.file, key, deadline, Min(io.appendFails.value, |line|), acked, now);
    } else {
      AppendAcknowledges(d.file, key, deadline, acked, now);
    }
  }

  lemma InsertByAppend(h: Handle, d: Directory, failed: set<Octets>, key: Octets, deadline: uint64, now: nat,
                       io: Outcome, acked: Seen)
    requires JustLoaded(h, d, failed, now) && FileOk(d.file, acked, now) && Tail(d.file.data) == []
    requires key !in h.seen && key != [] && deadline > 0
    ensures var w := Append(WithKey(h, key, deadline), d, FormatLine(key, deadline), io);
            && HandleOk(w.handle, w.dir, if w.ok then failed else failed + {key}, now)
            && FileOk(w.dir.file, if w.ok then acked[key := deadline] else acked, now)
  {
    CleanIsTerminated(d.file.data);
    FileTimePasses(d.file, acked, now, now);
    ResidentKeepsAcked(h, d, failed, acked, now);
    AppendedLine(d.file.data, key, deadline);
    AppendKeepsOwn(h, d, failed, key, deadline, FormatLine(key, deadline), now, io);
    AppendKeepsAcked(WithKey(h, key, deadline), d, key, deadline, FormatLine(key, deadline), now, io, acked);
  }

  lemma CleanIsTerminated(data: Octets)
    requires Tail(data) == []
    ensures IsTerminated(data) && BodyLength(data) == |data|
  {
    var n := BodyLength(data);
    assert |Tail(data)| == |data| - n;
    BodyIsTerminated(data);
    TakeAll(data, n);
  }

  lemma TakeAll<T>(s: seq<T>, n: nat)
    requires n == |s|
    ensures s[..n] == s
  {
  }

  /** What a scan establishes: a load that succeeds is exact, one that fails adds a stray key at most. */
  lemma ScanKeeps(h: Handle, d: Directory, failed: set<Octets>, clock: nat, now: nat, io: Outcome)
    requires HandleOk(h, d, failed, clock) && clock <= now && CleanFile(d.file.data)
    ensures var l := Scan(h, d, now, io);
            if l.Loaded? then JustLoaded(l.handle, d, failed, now) && l.torn == (Tail(d.file.data) != [])
              && io.readFails.None?
            else HandleOk(l.handle, d, failed + (if io.readFails.Some? then Stray(h, d, io.readFails.value) else {}),
                          now)
  {
    assert failed + {} == failed;
    if io.loadFails {
      TimePasses(h, d, failed, failed + (if io.readFails.Some? then Stray(h, d, io.readFails.value) else {}), clock,
                 now);
    } else if io.readFails.Some? {
      PartialLoadKeeps(h, d, io.readFails.value, failed, clock, now);
    } else if Load(h, d, now).Loaded? {
      LoadIsExact(h, d, failed, clock, now);
    } else {
      FailedLoadKeeps(h, d, failed, clock, now);
    }
  }

  /** The rest of an insert, given what its scan has established. */
  lemma FinishKeepsOwn(l: Loading, d: Directory, failed: set<Octets>, key: Octets, deadline: uint64, now: nat,
                       io: Outcome, acked: Seen)
    requires l.Loaded? && JustLoaded(l.handle, d, failed, now) && l.torn == (Tail(d.file.data) != [])
    requires FileOk(d.file, acked, now) && key != [] && deadline > 0
    ensures var a := Finish(l, d, key, deadline, io);
            && HandleOk(a.handle, a.dir, if a.inserted && !a.ok then failed + {key} else failed, now)
            && FileOk(a.dir.file, if a.inserted && a.ok then acked[key := deadline] else acked, now)
            && (a.inserted && key in acked ==> acked[key] <= now)
  {
    FileTimePasses(d.file, acked, now, now);
    LoadedFollows(l.handle, d, failed, now);
    ResidentKeepsAcked(l.handle, d, failed, acked, now);
    if key !in l.handle.seen {
      if l.expired || l.torn {
        InsertByCompaction(l.handle, d, failed, key, deadline, now, io, acked);
      } else {
        InsertByAppend(l.handle, d, failed, key, deadline, now, io, acked);
      }
    }
  }

  lemma InsertKeepsOwn(h: Handle, d: Directory, failed: set<Octets>, clock: nat,
                       key: Octets, deadline: uint64, now: uint64, io: Outcome, acked: Seen)
    requires HandleOk(h, d, failed, clock) && FileOk(d.file, acked, clock) && clock <= now && CleanFile(d.file.data)
    ensures var a := Insert(h, d, key, deadline, now, io);
            && HandleOk(a.handle, a.dir, failed + NewlyFailed(h, d, key, deadline, now, io), now)
            && FileOk(a.dir.file, if a.inserted && a.ok then acked[key := deadline] else acked, now)
            && (a.inserted && key in acked ==> acked[key] <= now)
  {
    FileTimePasses(d.file, acked, clock, now);
    assert failed + {} == failed;
    if Admissible(key, deadline, now) {
      ScanKeeps(h, d, failed, clock, now, io);
      var l := Scan(h, d, now, io);
      if l.Loaded? {
        FinishKeepsOwn(l, d, failed, key, deadline, now, io, acked);
      }
    } else {
      TimePasses(h, d, failed, failed + NewlyFailed(h, d, key, deadline, now, io), clock, now);
    }
  }

  lemma FinishKeepsOthers(l: Loading, d: Directory, key: Octets, deadline: uint64, io: Outcome, g: Handle,
                          others: set<Octets>, now: nat)
    requires l.Loaded? ==> Current(l.handle, d) && WellFormed(d.file.data) && l.torn == (Tail(d.file.data) != [])
    requires HandleOk(g, d, others, now)
    ensures HandleOk(g, Finish(l, d, key, deadline, io).dir, others, now)
  {
    if l.Loaded? && key !in l.handle.seen {
      var h2 := WithKey(l.handle, key, deadline);
      if l.expired || l.torn {
        CompactKeepsOthers(h2, d, io, g, others, now);
      } else {
        AppendKeepsOthers(h2, d, FormatLine(key, deadline), io, g, others, now);
      }
    }
  }

  lemma InsertKeepsOthers(h: Handle, d: Directory, failed: set<Octets>, clock: nat,
                          key: Octets, deadline: uint64, now: uint64, io: Outcome, g: Handle, others: set<Octets>)
    requires HandleOk(h, d, failed, clock) && HandleOk(g, d, others, clock) && clock <= now
    ensures HandleOk(g, Insert(h, d, key, deadline, now, io).dir, others, now)
  {
    TimePasses(g, d, others, others, clock, now);
    var l := Scan(h, d, now, io);
    if l.Loaded? {
      LoadIsExact(h, d, failed, clock, now);
    }
    FinishKeepsOthers(l, d, key, deadline, io, g, others, now);
  }

  lemma AppendKeepsOthers(h: Handle, d: Directory, line: Octets, io: Outcome, g: Handle, others: set<Octets>, now: nat)
    requires HandleOk(g, d, others, now) && WellFormed(d.file.data) && Tail(d.file.data) == []
    ensures HandleOk(g, Append(h, d, line, io).dir, others, now)
  {
    CleanIsTerminated(d.file.data);
    if io.appendFails.Some? {
      AppendKeepsHandle(g, d, line[..Min(io.appendFails.value, |line|)], d.file.synced, others, now);
    } else {
      AppendKeepsHandle(g, d, line, |d.file.data + line|, others, now);
    }
  }

  // ---------- the file stays clean ----------

  lemma CompactIsClean(h: Handle, d: Directory, io: Outcome)
    requires Sound(h)
    ensures var w := Compact(h, d, io);
            CleanFile(w.dir.file.data) || (!w.ok && w.dir.file == d.file)
  {
    CompactedReads(h.seen);
    TerminatedIsSane(Compacted(h.seen.Keys, h.seen));
  }

  lemma TerminatedIsSane(data: Octets)
    requires IsTerminated(data)
    ensures SaneTail(data)
  {
    TailConcat(data, data);
    var tail := Tail(data);
    assert tail == [];
    assert Split([], TAB) == [[]];
    assert ParseRecord([]).None?;
    assert SanePiece(tail, 0);
  }

  lemma TornLineIsSane(data: Octets, key: Octets, deadline: uint64, n: nat)
    requires IsTerminated(data) && key != [] && deadline > 0 && n <= |FormatRecord(key, deadline)|
    ensures SaneTail(data + FormatLine(key, deadline)[..n])
  {
    var record := FormatRecord(key, deadline);
    var torn := record[..n];
    assert FormatLine(key, deadline)[..n] == torn;
    RecordIsPlain(key, deadline);
    TailConcat(data, torn);
    assert Tail(torn) == torn by {
      assert IndexOf(torn, NEWLINE) == |torn|;
    }
    forall m | 0 <= m <= n ensures SanePiece(torn, m) {
      assert torn[..m] == record[..m];
      if ParseRecord(torn[..m]).Some? && ParseRecord(torn[..m]).value.deadline != MAX_U64 {
        TornKeepsKey(key, deadline, m, n);
        TornRecord(key, deadline, m);
      }
    }
  }

  lemma AppendIsClean(data: Octets, key: Octets, deadline: uint64, n: nat)
    requires IsTerminated(data) && WellFormed(data) && key != [] && deadline > 0 && n <= |FormatLine(key, deadline)|
    ensures CleanFile(data + FormatLine(key, deadline)[..n])
  {
    var line := FormatLine(key, deadline);
    if n == |line| {
      assert line[..n] == line;
      AppendedLine(data, key, deadline);
      TerminatedIsSane(data + line);
    } else {
      TornLineIsSane(data, key, deadline, n);
      TornAppend(data, key, deadline, n, key + [0]);
    }
  }

  lemma AppendKeepsClean(h: Handle, d: Directory, key: Octets, deadline: uint64, line: Octets, io: Outcome)
    requires WellFormed(d.file.data) && Tail(d.file.data) == [] && key != [] && deadline > 0
             && line == FormatLine(key, deadline)
    ensures CleanFile(Append(h, d, line, io).dir.file.data)
  {
    CleanIsTerminated(d.file.data);
    if io.appendFails.Some? {
      AppendIsClean(d.file.data, key, deadline, Min(io.appendFails.value, |line|));
    } else {
      assert line[..|line|] == line;
      AppendIsClean(d.file.data, key, deadline, |line|);
    }
  }

  lemma WriteIsClean(h: Handle, d: Directory, compacts: bool, key: Octets, deadline: uint64, line: Octets, io: Outcome)
    requires Sound(h) && CleanFile(d.file.data) && (!compacts ==> Tail(d.file.data) == [])
    requires key != [] && deadline > 0 && line == FormatLine(key, deadline)
    ensures CleanFile((if compacts then Compact(h, d, io) else Append(h, d, line, io)).dir.file.data)
  {
    if compacts {
      CompactIsClean(h, d, io);
    } else {
      AppendKeepsClean(h, d, key, deadline, line, io);
    }
  }

  lemma FinishIsClean(l: Loading, d: Directory, key: Octets, deadline: uint64, io: Outcome)
    requires l.Loaded? ==> Sound(l.handle) && l.torn == (Tail(d.file.data) != [])
    requires CleanFile(d.file.data) && key != [] && deadline > 0
    ensures CleanFile(Finish(l, d, key, deadline, io).dir.file.data)
  {
    if l.Loaded? && key !in l.handle.seen {
      WriteIsClean(WithKey(l.handle, key, deadline), d, l.expired || l.torn, key, deadline, FormatLine(key, deadline),
                   io);
    }
  }

  lemma InsertKeepsClean(h: Handle, d: Directory, failed: set<Octets>, clock: nat,
                         key: Octets, deadline: uint64, now: uint64, io: Outcome)
    requires HandleOk(h, d, failed, clock) && clock <= now && CleanFile(d.file.data)
    ensures CleanFile(Insert(h, d, key, deadline, now, io).dir.file.data)
  {
    if Admissible(key, deadline, now) {
      ScanKeeps(h, d, failed, clock, now, io);
      FinishIsClean(Scan(h, d, now, io), d, key, deadline, io);
    }
  }

  lemma MendIsClean(l: Loading, d: Directory, io: Outcome)
    requires l.Loaded? ==> Sound(l.handle) && WellFormed(d.file.data) && l.torn == (Tail(d.file.data) != [])
    ensures var w := Mend(l, d, io); w.ok || CleanFile(d.file.data) ==> CleanFile(w.dir.file.data)
  {
    if l.Loaded? {
      if l.expired || l.torn {
        CompactIsClean(l.handle, d, io);
      } else {
        BodyIsTerminated(d.file.data);
        assert d.file.data[..|d.file.data|] == d.file.data;
        TerminatedIsSane(d.file.data);
      }
    }
  }

  /** What opening reads, if its scan succeeds. */
  lemma FreshScan(d: Directory, now: nat, io: Outcome)
    ensures var l := Scan(FRESH, d, now, io);
            l.Loaded? ==> JustLoaded(l.handle, d, {}, now) && l.torn == (Tail(d.file.data) != [])
  {
    if Load(FRESH, d, now).Loaded? {
      LoadIsExact(FRESH, d, {}, now, now);
    }
  }

  /** Opening succeeds on a clean file only, or makes it clean. */
  lemma OpenIsClean(d: Directory, now: uint64, io: Outcome)
    ensures var w := Open(d, now, io); w.ok || CleanFile(d.file.data) ==> CleanFile(w.dir.file.data)
  {
    FreshScan(d, now, io);
    MendIsClean(Scan(FRESH, d, now, io), d, io);
  }

  lemma InsertKeepsInv(s: State, e: Event)
    requires Inv(s) && e.InsertKey? && Enabled(s, e)
    ensures Inv(Execute(s, e))
    ensures Inserting(s, e).inserted && e.key in s.acked ==> s.acked[e.key] <= e.now
  {
    var h := s.handles[e.id];
    InsertKeepsOwn(h, s.dir, s.failed[e.id], s.clock, e.key, e.deadline, e.now, e.io, s.acked);
    var t := Execute(s, e);
    InsertKeepsClean(h, s.dir, s.failed[e.id], s.clock, e.key, e.deadline, e.now, e.io);
    forall id | id in t.handles ensures HandleOk(t.handles[id], t.dir, t.failed[id], t.clock) {
      if id != e.id {
        InsertKeepsOthers(h, s.dir, s.failed[e.id], s.clock, e.key, e.deadline, e.now, e.io, s.handles[id],
                          s.failed[id]);
      }
    }
  }

  // ---------- open, close, crash ----------

  lemma MendKeeps(l: Loading, d: Directory, io: Outcome, acked: Seen, now: nat)
    requires FileOk(d.file, acked, now) && (l.Loaded? ==> JustLoaded(l.handle, d, {}, now))
    ensures var w := Mend(l, d, io);
            FileOk(w.dir.file, acked, now) && (w.ok ==> HandleOk(w.handle, w.dir, {}, now))
  {
    if l.Loaded? {
      FileTimePasses(d.file, acked, now, now);
      LoadedFollows(l.handle, d, {}, now);
      ResidentKeepsAcked(l.handle, d, {}, acked, now);
      CompactKeepsHandle(l.handle, d, io, {}, {}, now);
      CompactKeeps(l.handle, d, io, acked, now);
    }
  }

  lemma OpenKeepsOwn(d: Directory, now: uint64, io: Outcome, acked: Seen)
    requires FileOk(d.file, acked, now)
    ensures var w := Open(d, now, io);
            FileOk(w.dir.file, acked, now) && (w.ok ==> HandleOk(w.handle, w.dir, {}, now))
  {
    FreshScan(d, now, io);
    MendKeeps(Scan(FRESH, d, now, io), d, io, acked, now);
  }

  lemma MendKeepsOthers(l: Loading, d: Directory, io: Outcome, g: Handle, others: set<Octets>, now: nat)
    requires (l.Loaded? ==> Current(l.handle, d)) && HandleOk(g, d, others, now)
    ensures HandleOk(g, Mend(l, d, io).dir, others, now)
  {
    if l.Loaded? {
      CompactKeepsOthers(l.handle, d, io, g, others, now);
    }
  }

  lemma OpenKeepsOthers(d: Directory, now: uint64, io: Outcome, g: Handle, others: set<Octets>)
    requires HandleOk(g, d, others, now)
    ensures HandleOk(g, Open(d, now, io).dir, others, now)
  {
    FreshScan(d, now, io);
    MendKeepsOthers(Scan(FRESH, d, now, io), d, io, g, others, now);
  }

  lemma OpenKeepsInv(s: State, e: Event)
    requires Inv(s) && e.OpenHandle? && Enabled(s, e)
    ensures Inv(Execute(s, e))
  {
    var t := Execute(s, e);
    FileTimePasses(s.dir.file, s.acked, s.clock, e.now);
    OpenKeepsOwn(s.dir, e.now, e.io, s.acked);
    OpenIsClean(s.dir, e.now, e.io);
    forall id | id in s.handles ensures HandleOk(s.handles[id], t.dir, s.failed[id], e.now) {
      TimePasses(s.handles[id], s.dir, s.failed[id], s.failed[id], s.clock, e.now);
      OpenKeepsOthers(s.dir, e.now, e.io, s.handles[id], s.failed[id]);
    }
  }

  /** A crash may cut a file anywhere in its unsynced part. */
  lemma CutKeeps(f: File, length: nat, m: Seen, clock: nat)
    requires FileOk(f, m, clock) && f.synced <= length <= |f.data|
    ensures FileOk(Cut(f, length), m, clock)
  {
    var cut := Cut(f, length);
    forall n | cut.synced <= n <= |cut.data| ensures Keeps(cut.data[..n], m, clock) {
      assert n == length && cut.data[..n] == f.data[..length];
    }
  }

  lemma CrashKeepsInv(s: State, e: Event)
    requires Inv(s) && e.Crash? && Enabled(s, e)
    ensures Inv(Execute(s, e))
  {
    CutKeeps(s.dir.file, e.length, s.acked, s.clock);
  }

  lemma StepKeepsInv(s: State, e: Event)
    requires Inv(s) && Enabled(s, e) && !e.RevertingCrash?
    ensures Inv(Execute(s, e))
  {
    match e
    case OpenHandle(_, _, _) => OpenKeepsInv(s, e);
    case InsertKey(_, _, _, _, _) => InsertKeepsInv(s, e);
    case CloseHandle(_) =>
    case Crash(_, _) => CrashKeepsInv(s, e);
  }

  // ---------- runs ----------

  lemma InitialIsInv(s: State)
    requires Initial(s)
    ensures Inv(s)
  {
  }

  predicate NoRevert(events: seq<Event>) {
    forall i :: 0 <= i < |events| ==> !events[i].RevertingCrash?
  }

  lemma {:induction false} RunKeepsInv(s: State, events: seq<Event>)
    requires Inv(s) && ValidRun(s, events) && NoRevert(events)
    ensures Inv(StateAfter(s, events))
    decreases |events|
  {
    if events != [] {
      StepKeepsInv(s, events[0]);
      RunKeepsInv(Execute(s, events[0]), events[1..]);
    }
  }

  lemma {:induction false} ClockNeverDecreases(s: State, events: seq<Event>)
    requires ValidRun(s, events)
    ensures s.clock <= StateAfter(s, events).clock
    decreases |events|
  {
    if events != [] {
      ClockNeverDecreases(Execute(s, events[0]), events[1..]);
    }
  }

  /** While an acknowledged deadline lies ahead of the clock, nothing takes the acknowledgement away. */
  lemma {:induction false} AcknowledgementLasts(s: State, events: seq<Event>, k: Octets, deadline: uint64)
    requires Inv(s) && ValidRun(s, events) && NoRevert(events)
    requires k in s.acked && s.acked[k] == deadline && deadline > StateAfter(s, events).clock
    ensures var t := StateAfter(s, events); k in t.acked && t.acked[k] == deadline
    decreases |events|
  {
    if events != [] {
      var e := events[0];
      var next := Execute(s, e);
      StepKeepsInv(s, e);
      ClockNeverDecreases(next, events[1..]);
      if e.InsertKey? {
        InsertKeepsInv(s, e);
      }
      AcknowledgementLasts(next, events[1..], k, deadline);
    }
  }

  /**
   * The theorem. In any run from any directory content, with any number of handles, failing input
   * and output, compactions, torn appends and crashes: once an insert of a key has returned
   * (true, nil), every later insert of that key before its deadline returns false.
   */
  lemma AtMostOnce(s: State, before: seq<Event>, first: Event, between: seq<Event>, second: Event)
    requires Initial(s) && ValidRun(s, before) && NoRevert(before)
    requires var s1 := StateAfter(s, before);
             && Enabled(s1, first) && first.InsertKey?
             && Inserting(s1, first).inserted && Inserting(s1, first).ok
             && ValidRun(Execute(s1, first), between) && NoRevert(between)
             && var s2 := StateAfter(Execute(s1, first), between);
                Enabled(s2, second) && second.InsertKey? && second.key == first.key && second.now < first.deadline
    ensures !Inserting(StateAfter(Execute(StateAfter(s, before), first), between), second).inserted
  {
    InitialIsInv(s);
    RunKeepsInv(s, before);
    var s1 := StateAfter(s, before);
    InsertKeepsInv(s1, first);
    var t := Execute(s1, first);
    RunKeepsInv(t, between);
    var s2 := StateAfter(t, between);
    AcknowledgementLasts(t, between, first.key, first.deadline);
    InsertKeepsInv(s2, second);
  }

  lemma UnterminatedHasTail(s: Octets)
    requires !IsTerminated(s)
    ensures Tail(s) != []
  {
    BodyIsTerminated(s);
    assert s[..|s|] == s;
  }

  /** The file is as it was, or it is a whole, synced compaction of what the handle holds. */
  ghost predicate LeftOrReplaced(d: Directory, h: Handle, n: Directory) {
    n.file == d.file || (n.file.data == Compacted(h.seen.Keys, h.seen) && n.file.synced == |n.file.data|)
  }

  lemma FinishLeavesTail(l: Loading, d: Directory, key: Octets, deadline: uint64, io: Outcome)
    requires l.Loaded? ==> l.torn
    ensures var a := Finish(l, d, key, deadline, io); LeftOrReplaced(d, a.handle, a.dir)
  {
  }

  /** Nothing is ever written after an unterminated tail: the file is left alone or replaced by a compaction. */
  lemma TornTailIsNeverExtended(h: Handle, d: Directory, failed: set<Octets>, clock: nat,
                                key: Octets, deadline: uint64, now: uint64, io: Outcome)
    requires HandleOk(h, d, failed, clock) && clock <= now && !IsTerminated(d.file.data)
    ensures var a := Insert(h, d, key, deadline, now, io); LeftOrReplaced(d, a.handle, a.dir)
  {
    UnterminatedHasTail(d.file.data);
    var l := Scan(h, d, now, io);
    if l.Loaded? {
      LoadIsExact(h, d, failed, clock, now);
    }
    FinishLeavesTail(l, d, key, deadline, io);
  }
}

/**
 * What a read error in the middle of a scan leaves behind: the line it cuts is read as if it were whole, and the handle
 * may then refuse a key that nobody has inserted.
 */
module RetentionStray {
  import opened Bytes
  import opened RetentionRecord
  import opened RetentionLog
  import opened RetentionMachine
  import opened RetentionSafety
  import opened RetentionRevert

  // ---------- what a load holds ----------

  lemma SettledHolds(h: Handle, torn: bool, now: nat, k: Octets)
    requires Sound(h)
    ensures k in Settle(h, torn, now).handle.seen <==> k in h.seen && h.seen[k] > now
  {
  }

  function Rest(h: Handle, d: Directory): Octets {
    d.file.data[Offset(h, d)..]
  }

  /** A load holds what was held before and what it reads, as far as that is live. */
  lemma LoadHolds(h: Handle, d: Directory, failed: set<Octets>, clock: nat, now: nat, k: Octets)
    requires HandleOk(h, d, failed, clock) && WellFormed(d.file.data)
    ensures var m := Start(h, d).seen + Records(Rest(h, d));
            Load(h, d, now).Loaded? && (k in Load(h, d, now).handle.seen <==> k in m && m[k] > now)
  {
    ReadAgrees(h, d, failed, clock);
    var rest := Rest(h, d);
    var r := Read(rest, Start(h, d));
    ReadMerges(rest, Start(h, d));
    SettledHolds(Handle(r.seen, r.minDeadline, Some(d.file.inode), Offset(h, d) + BodyLength(rest),
                        ReadGeneration(d.generation).value),
                 Tail(rest) != [], now, k);
  }

  lemma HealthyInsertIff(h: Handle, d: Directory, k: Octets, deadline: uint64, now: uint64)
    requires Load(h, d, now).Loaded? && k != [] && 0 < now < deadline
    ensures Insert(h, d, k, deadline, now, HEALTHY).inserted <==> k !in Load(h, d, now).handle.seen
  {
  }

  // ---------- the rest of the file ----------

  lemma SplitFile(h: Handle, d: Directory)
    requires CleanFile(d.file.data)
             && (Current(h, d) ==> IsTerminated(d.file.data[..h.loadedSize]) && WellFormed(d.file.data[..h.loadedSize]))
    ensures CleanFile(Rest(h, d))
    ensures Current(h, d) ==> Records(d.file.data) == Records(d.file.data[..h.loadedSize]) + Records(Rest(h, d))
    ensures !Current(h, d) ==> Rest(h, d) == d.file.data
  {
    if Current(h, d) {
      var body, rest := d.file.data[..h.loadedSize], Rest(h, d);
      WholeFile(d.file.data, h.loadedSize);
      RecordsConcat(body, rest);
      TailConcat(body, rest);
    }
  }

  lemma SplitScan(h: Handle, d: Directory, n: nat)
    ensures Delivered(h, d, n) <= Rest(h, d)
    ensures Delivered(h, d, n) + Rest(h, d)[|Delivered(h, d, n)|..] == Rest(h, d)
  {
    WholeFile(Rest(h, d), |Delivered(h, d, n)|);
  }

  /** The stray key is the one that the cut line adds. */
  lemma StrayIsRead(p: Octets, k: Octets)
    requires WellFormed(p) && ParseRecord(Tail(p)).Some? && ParseRecord(Tail(p)).value.key == k
    ensures k in Records(p)
  {
    BodyAndTail(p, []);
    ReadResumes(p[..BodyLength(p)], Tail(p), NOTHING);
    TailReads(Tail(p), Read(p[..BodyLength(p)], NOTHING));
    EmptyIsNoRecord();
  }

  lemma EmptyIsNoRecord()
    ensures ParseRecord([]).None?
  {
    assert Split([], TAB) == [[]];
  }

  /** In a handle in step with the file, the error has overwritten what it held for the stray key alone. */
  lemma ScanHolds(h: Handle, d: Directory, n: nat, now: nat, k: Octets)
    requires Current(h, d) && CleanFile(Rest(h, d)) && k !in Records(Rest(h, d))
    ensures var g := PartialLoad(h, d, n);
            if k in Stray(h, d, n) then k in g.seen && g.seen[k] == MAX_U64
            else (k in g.seen <==> k in h.seen) && (k in h.seen ==> g.seen[k] == h.seen[k])
  {
    var p := Delivered(h, d, n);
    var q := Rest(h, d)[|p|..];
    SplitScan(h, d, n);
    PrefixWellFormed(p, q);
    ReadMerges(p, Start(h, d));
    if k in Stray(h, d, n) {
      StrayIsRead(p, k);
    }
    if k in Records(p) {
      OnlyTheStrayIsNew(p, q, k);
    }
  }

  /**
   * A key that the error makes the handle refuse: the cut line reads as it, and the rest of the file says nothing of
   * it.
   */
  predicate Shadowed(h: Handle, d: Directory, n: nat, k: Octets) {
    Current(h, d) && k in Stray(h, d, n) && k !in Records(Rest(h, d))
  }

  lemma ErrorKeepsPlace(h: Handle, d: Directory, n: nat)
    ensures var g := PartialLoad(h, d, n);
            (Current(g, d) <==> Current(h, d)) && Rest(g, d) == Rest(h, d)
              && (Current(h, d) ==> Start(g, d).seen == g.seen)
  {
  }

  /** What the next load holds of the key, with and without the error. */
  lemma HeldAfterError(h: Handle, d: Directory, n: nat, now: nat, k: Octets)
    requires CleanFile(Rest(h, d)) && now < MAX_U64
    ensures var rest := Records(Rest(h, d));
            var m, m0 := Start(PartialLoad(h, d, n), d).seen + rest, Start(h, d).seen + rest;
            k in m && m[k] > now <==> (k in m0 && m0[k] > now) || Shadowed(h, d, n, k)
  {
    ErrorKeepsPlace(h, d, n);
    if Current(h, d) && k !in Records(Rest(h, d)) {
      ScanHolds(h, d, n, now, k);
    }
  }

  lemma HealthyInsertHolds(h: Handle, d: Directory, failed: set<Octets>, clock: nat, k: Octets, deadline: uint64,
                           now: uint64)
    requires HandleOk(h, d, failed, clock) && WellFormed(d.file.data) && Admissible(k, deadline, now)
    ensures var m := Start(h, d).seen + Records(Rest(h, d));
            Insert(h, d, k, deadline, now, HEALTHY).inserted <==> !(k in m && m[k] > now)
  {
    LoadHolds(h, d, failed, clock, now, k);
    HealthyInsertIff(h, d, k, deadline, now);
  }

  lemma RestIsClean(h: Handle, d: Directory, failed: set<Octets>, clock: nat)
    requires HandleOk(h, d, failed, clock) && CleanFile(d.file.data)
    ensures CleanFile(Rest(h, d))
  {
    SplitFile(h, d);
  }

  /**
   * The exact effect. A read error in mid-scan changes the answer to a healthy insert that follows for shadowed keys
   * only: those are refused. So the safety of the cache is kept, and a shadowed key is refused for good.
   */
  lemma RefusedAfterReadErrorIff(h: Handle, d: Directory, failed: set<Octets>, n: nat, clock: nat,
                                 k: Octets, deadline: uint64, now: uint64)
    requires HandleOk(h, d, failed, clock) && CleanFile(d.file.data) && clock <= now && Admissible(k, deadline, now)
    ensures Insert(PartialLoad(h, d, n), d, k, deadline, now, HEALTHY).inserted
            <==> Insert(h, d, k, deadline, now, HEALTHY).inserted && !Shadowed(h, d, n, k)
  {
    var g := PartialLoad(h, d, n);
    PartialLoadKeeps(h, d, n, failed, clock, now);
    HealthyInsertHolds(g, d, failed + Stray(h, d, n), now, k, deadline, now);
    HealthyInsertHolds(h, d, failed, clock, k, deadline, now);
    ErrorKeepsPlace(h, d, n);
    RestIsClean(h, d, failed, clock);
    HeldAfterError(h, d, n, now, k);
  }

  lemma HeldIffLive(h: Handle, d: Directory, clock: nat, now: nat, k: Octets)
    requires HandleOk(h, d, {}, clock) && CleanFile(d.file.data) && clock <= now
    ensures var m := Start(h, d).seen + Records(Rest(h, d));
            k in m && m[k] > now <==> k in Live(Records(d.file.data), now)
  {
    SplitFile(h, d);
    if Current(h, d) && k !in Records(Rest(h, d)) {
      assert Agrees(k, h.seen, Records(d.file.data[..h.loadedSize]), {}, clock);
    }
  }

  /**
   * In a handle without failed inserts that is: refused exactly when the file records the key as live or it is
   * shadowed.
   */
  lemma RefusedByFileOrErrorIff(h: Handle, d: Directory, n: nat, clock: nat, k: Octets, deadline: uint64, now: uint64)
    requires HandleOk(h, d, {}, clock) && CleanFile(d.file.data) && clock <= now && Admissible(k, deadline, now)
    ensures Insert(PartialLoad(h, d, n), d, k, deadline, now, HEALTHY).inserted
            <==> k !in Live(Records(d.file.data), now) && !Shadowed(h, d, n, k)
  {
    RefusedAfterReadErrorIff(h, d, {}, n, clock, k, deadline, now);
    HealthyInsertHolds(h, d, {}, clock, k, deadline, now);
    HeldIffLive(h, d, clock, now, k);
  }

  // ---------- such a key ----------

  /** A handle on an empty file, which another handle has since given a line for the two octets `a` and `b`. */
  function OneLine(inode: nat, a: byte, b: byte, deadline: uint64): Directory {
    var line := FormatLine([a, b], deadline);
    Directory(File(inode, line, |line|), [], {}, None)
  }

  function BeforeLine(inode: nat): Handle {
    Handle(map[], MAX_U64, Some(inode), 0, 0)
  }

  lemma TwoDigits(a: byte, b: byte, deadline: uint64)
    ensures FormatLine([a, b], deadline)[..2] == HexEncode([a])
    ensures |FormatLine([a, b], deadline)| >= 2
  {
    assert [a, b][1..] == [b];
    assert [a][1..] == [];
    assert HexEncode([a, b]) == HexEncode([a]) + HexEncode([b]);
  }

  lemma DigitsAreAKey(s: Octets, a: byte)
    requires s == HexEncode([a])
    ensures Tail(s) == s && ParseRecord(s) == Some(Record([a], MAX_U64))
  {
    HexIsPlain([a]);
    HexRoundTrip([a]);
    assert IndexOf(s, NEWLINE) == |s|;
    assert Split(s, TAB) == [s];
  }

  lemma LineRest(inode: nat, a: byte, b: byte, deadline: uint64)
    requires deadline > 0
    ensures var h, d := BeforeLine(inode), OneLine(inode, a, b, deadline);
            && Current(h, d) && Rest(h, d) == d.file.data && Delivered(h, d, 2) == HexEncode([a])
            && CleanFile(d.file.data) && Records(d.file.data) == map[[a, b] := deadline]
            && IsTerminated([]) && WellFormed([]) && Records([]) == map[]
  {
    var h, d := BeforeLine(inode), OneLine(inode, a, b, deadline);
    var line := FormatLine([a, b], deadline);
    TwoDigits(a, b, deadline);
    assert d.file.data[0..] == line;
    EmptyReads([], NOTHING);
    AppendedLine([], [a, b], deadline);
    assert [] + line == line;
    TerminatedIsSane(line);
  }

  lemma NothingHeld(h: Handle, d: Directory, now: nat)
    requires h.seen == map[] && h.minDeadline == MAX_U64 && h.loadedSize == 0 && Current(h, d)
    ensures HandleOk(h, d, {}, now)
  {
    var none := d.file.data[..0];
    EmptyReads(none, NOTHING);
    assert none == [];
  }

  lemma OtherKey(m: Seen, a: byte, b: byte, deadline: uint64)
    requires m == map[[a, b] := deadline]
    ensures [a] !in m
  {
    assert |[a]| != |[a, b]|;
  }

  lemma LineIsShadowed(h: Handle, d: Directory, a: byte, b: byte, deadline: uint64, now: uint64)
    requires 0 < deadline && h == BeforeLine(d.file.inode) && d == OneLine(d.file.inode, a, b, deadline)
    ensures HandleOk(h, d, {}, now) && CleanFile(d.file.data)
    ensures Shadowed(h, d, 2, [a]) && [a] !in Records(d.file.data)
  {
    LineRest(d.file.inode, a, b, deadline);
    NothingHeld(h, d, now);
    OtherKey(Records(d.file.data), a, b, deadline);
    DigitsAreAKey(Delivered(h, d, 2), a);
  }

  /** A key that nobody has inserted is refused after a read error. */
  ghost predicate RefusedUnwritten(h: Handle, d: Directory, n: nat, k: Octets, deadline: uint64, now: uint64) {
    && HandleOk(h, d, {}, now) && Admissible(k, deadline, now) && k !in Records(d.file.data)
    && Insert(h, d, k, deadline, now, HEALTHY).inserted
    && !Insert(PartialLoad(h, d, n), d, k, deadline, now, HEALTHY).inserted
  }

  lemma ShadowedIsRefused(h: Handle, d: Directory, n: nat, k: Octets, deadline: uint64, now: uint64)
    requires HandleOk(h, d, {}, now) && CleanFile(d.file.data) && Admissible(k, deadline, now)
    requires Shadowed(h, d, n, k) && k !in Records(d.file.data)
    ensures RefusedUnwritten(h, d, n, k, deadline, now)
  {
    RefusedAfterReadErrorIff(h, d, {}, n, now, k, deadline, now);
    HealthyInsertHolds(h, d, {}, now, k, deadline, now);
    HeldIffLive(h, d, now, now, k);
  }

  /** It takes a read error after two octets of that line: the key `a` is then refused. */
  lemma UnwrittenKeyIsRefused(inode: nat, a: byte, b: byte, deadline: uint64, now: uint64)
      returns (h: Handle, d: Directory, n: nat, k: Octets)
    requires 0 < now < deadline
    ensures h == BeforeLine(inode) && d == OneLine(inode, a, b, deadline) && n == 2 && k == [a]
    ensures RefusedUnwritten(h, d, n, k, deadline, now)
  {
    h, d, n, k := BeforeLine(inode), OneLine(inode, a, b, deadline), 2, [a];
    LineIsShadowed(h, d, a, b, deadline, now);
    ShadowedIsRefused(h, d, n, k, deadline, now);
  }
}

/** Reading the retention data file: newline-terminated records and at most one torn tail. */
module RetentionLog {
  import opened Bytes
  import opened RetentionRecord

  type Seen = map<Octets, uint64>

  /** What one newline-terminated line says. */
  datatype Entry = Blank | Holds(record: Record) | Corrupt

  function ReadLine(line: Octets): Entry {
    if line == [] then Blank
    else match ParseRecord(line)
      case None => Corrupt
      case Some(r) => Holds(r)
  }

  predicate IsTerminated(s: Octets) {
    s == [] || s[|s| - 1] == NEWLINE
  }

  /** The newline-terminated lines of `s`, in file order and without their newlines. */
  function Lines(s: Octets): seq<Octets>
    decreases |s|
  {
    var i := IndexOf(s, NEWLINE);
    if i == |s| then [] else [s[..i]] + Lines(s[i + 1..])
  }

  function ReadLines(lines: seq<Octets>): (entries: seq<Entry>)
    ensures |entries| == |lines|
    ensures forall i :: 0 <= i < |lines| ==> entries[i] == ReadLine(lines[i])
  {
    seq(|lines|, i requires 0 <= i < |lines| => ReadLine(lines[i]))
  }

  function Entries(s: Octets): seq<Entry> {
    ReadLines(Lines(s))
  }

  /** The offset past the last newline; what follows it is a torn tail. */
  function BodyLength(s: Octets): (n: nat)
    ensures n <= |s|
    decreases |s|
  {
    var i := IndexOf(s, NEWLINE);
    if i == |s| then 0 else i + 1 + BodyLength(s[i + 1..])
  }

  function Tail(s: Octets): Octets {
    s[BodyLength(s)..]
  }

  /** The resident state of a handle while it reads; `ok` is lost at the first corrupt line. */
  datatype Reading = Reading(seen: Seen, minDeadline: uint64, ok: bool)

  const NOTHING := Reading(map[], MAX_U64, true)

  function Remember(f: Reading, r: Record): Reading {
    Reading(f.seen[r.key := r.deadline], Min(f.minDeadline, r.deadline), f.ok)
  }

  function Apply(entries: seq<Entry>, f: Reading): Reading {
    if entries == [] || !f.ok then f
    else
      match entries[0]
      case Blank => Apply(entries[1..], f)
      case Holds(r) => Apply(entries[1..], Remember(f, r))
      case Corrupt => f.(ok := false)
  }

  /** A torn tail is remembered when it parses; otherwise it says nothing. */
  function ApplyTail(tail: Octets, f: Reading): Reading {
    if tail == [] || !f.ok then f
    else match ParseRecord(tail)
      case None => f
      case Some(r) => Remember(f, r)
  }

  function Read(s: Octets, f: Reading): Reading {
    ApplyTail(Tail(s), Apply(Entries(s), f))
  }

  /** The records of a file read from scratch, the later of two records of a key winning. */
  function Records(s: Octets): Seen {
    Read(s, NOTHING).seen
  }

  predicate WellFormed(s: Octets) {
    Read(s, NOTHING).ok
  }

  /** The part of `m` whose retention outlasts `now`. */
  function Live(m: Seen, now: nat): (r: Seen) {
    map k | k in m && m[k] > now :: m[k]
  }

  predicate LowerBound(low: nat, m: Seen) {
    forall k :: k in m ==> low <= m[k]
  }

  predicate Writable(m: Seen) {
    forall k :: k in m ==> k != [] && m[k] > 0
  }

  // ---------- entries ----------

  lemma {:induction false} ApplyConcat(a: seq<Entry>, b: seq<Entry>, f: Reading)
    ensures Apply(a + b, f) == Apply(b, Apply(a, f))
  {
    if a == [] {
      assert a + b == b;
    } else if f.ok {
      assert (a + b)[1..] == a[1..] + b;
      match a[0]
      case Blank => ApplyConcat(a[1..], b, f);
      case Holds(r) => ApplyConcat(a[1..], b, Remember(f, r));
      case Corrupt =>
    }
  }

  /** Reading onto a resident map equals merging what a reading from scratch finds. */
  lemma {:induction false} ApplyMerges(entries: seq<Entry>, f: Reading)
    requires f.ok
    ensures Apply(entries, f).ok == Apply(entries, NOTHING).ok
    ensures Apply(entries, f).seen == f.seen + Apply(entries, NOTHING).seen
  {
    if entries != [] {
      match entries[0]
      case Blank => ApplyMerges(entries[1..], f);
      case Holds(r) =>
        ApplyMerges(entries[1..], Remember(f, r));
        ApplyMerges(entries[1..], Remember(NOTHING, r));
      case Corrupt =>
    }
  }

  lemma {:induction false} ApplyKeepsLowerBound(entries: seq<Entry>, f: Reading)
    requires LowerBound(f.minDeadline, f.seen)
    ensures LowerBound(Apply(entries, f).minDeadline, Apply(entries, f).seen)
  {
    if entries != [] && f.ok {
      match entries[0]
      case Blank => ApplyKeepsLowerBound(entries[1..], f);
      case Holds(r) => ApplyKeepsLowerBound(entries[1..], Remember(f, r));
      case Corrupt =>
    }
  }

  predicate IsWritable(e: Entry) {
    e.Holds? ==> e.record.key != [] && e.record.deadline > 0
  }

  lemma {:induction false} ApplyIsWritable(entries: seq<Entry>, f: Reading)
    requires Writable(f.seen)
    requires forall i :: 0 <= i < |entries| ==> IsWritable(entries[i])
    ensures Writable(Apply(entries, f).seen)
  {
    if entries != [] && f.ok {
      match entries[0]
      case Blank => ApplyIsWritable(entries[1..], f);
      case Holds(r) =>
        assert IsWritable(entries[0]);
        ApplyIsWritable(entries[1..], Remember(f, r));
      case Corrupt =>
    }
  }

  // ---------- lines ----------

  lemma FirstLine(p: Octets, q: Octets)
    requires p != [] && IsTerminated(p)
    ensures var i := IndexOf(p, NEWLINE);
            && i < |p| && IndexOf(p + q, NEWLINE) == i
            && (p + q)[..i] == p[..i] && (p + q)[i + 1..] == p[i + 1..] + q
            && IsTerminated(p[i + 1..])
  {
    var i := IndexOf(p, NEWLINE);
    assert p[|p| - 1] == NEWLINE;
    assert (p + q)[i] == NEWLINE && forall j :: 0 <= j < i ==> (p + q)[j] == p[j];
  }

  lemma Assoc<T>(a: seq<T>, b: seq<T>, c: seq<T>)
    ensures (a + b) + c == a + (b + c)
  {
  }

  lemma {:induction false} LinesConcat(p: Octets, q: Octets)
    requires IsTerminated(p)
    ensures Lines(p + q) == Lines(p) + Lines(q)
    decreases |p|
  {
    if p == [] {
      assert p + q == q;
      assert Lines(p) == [];
    } else {
      FirstLine(p, q);
      var i := IndexOf(p, NEWLINE);
      LinesConcat(p[i + 1..], q);
      LinesStep(p, i);
      LinesStep(p + q, i);
      Assoc([p[..i]], Lines(p[i + 1..]), Lines(q));
    }
  }

  lemma LinesStep(s: Octets, i: nat)
    requires i == IndexOf(s, NEWLINE) && i < |s|
    ensures Lines(s) == [s[..i]] + Lines(s[i + 1..])
  {
  }

  lemma {:induction false} BodyConcat(p: Octets, q: Octets)
    requires IsTerminated(p)
    ensures BodyLength(p + q) == |p| + BodyLength(q)
    decreases |p|
  {
    if p == [] {
      assert p + q == q;
    } else {
      FirstLine(p, q);
      BodyConcat(p[IndexOf(p, NEWLINE) + 1..], q);
    }
  }

  lemma TailConcat(p: Octets, q: Octets)
    requires IsTerminated(p)
    ensures BodyLength(p) == |p| && Tail(p) == [] && Tail(p + q) == Tail(q)
  {
    TailSame(p, q);
    TailEmpty(p);
  }

  lemma TailSame(p: Octets, q: Octets)
    requires IsTerminated(p)
    ensures Tail(p + q) == Tail(q)
  {
    BodyConcat(p, q);
    DropConcat(p, q, BodyLength(q));
  }

  lemma TailEmpty(p: Octets)
    requires IsTerminated(p)
    ensures BodyLength(p) == |p| && Tail(p) == []
  {
    WholeBody(p);
  }

  lemma DropConcat<T>(p: seq<T>, q: seq<T>, n: nat)
    requires n <= |q|
    ensures |p| + n <= |p + q| && (p + q)[|p| + n..] == q[n..]
  {
  }

  lemma {:induction false} WholeBody(p: Octets)
    requires IsTerminated(p)
    ensures BodyLength(p) == |p|
    decreases |p|
  {
    if p != [] {
      FirstLine(p, p);
      WholeBody(p[IndexOf(p, NEWLINE) + 1..]);
    }
  }

  lemma ReadLinesConcat(a: seq<Octets>, b: seq<Octets>)
    ensures ReadLines(a + b) == ReadLines(a) + ReadLines(b)
  {
  }

  lemma EntriesConcat(p: Octets, q: Octets)
    requires IsTerminated(p)
    ensures Entries(p + q) == Entries(p) + Entries(q)
    ensures Tail(p) == [] && Tail(p + q) == Tail(q)
  {
    LinesConcat(p, q);
    TailConcat(p, q);
    ReadLinesConcat(Lines(p), Lines(q));
  }

  /** The body is terminated and the tail holds no newline. */
  lemma {:induction false} BodyIsTerminated(s: Octets)
    ensures IsTerminated(s[..BodyLength(s)])
    ensures NEWLINE !in Tail(s)
    decreases |s|
  {
    var i := IndexOf(s, NEWLINE);
    if i < |s| {
      var rest := s[i + 1..];
      var n := BodyLength(rest);
      BodyIsTerminated(rest);
      SplitTwice(s, i + 1, n, i + 1 + n);
    }
  }

  lemma SplitTwice<T>(s: seq<T>, a: nat, n: nat, b: nat)
    requires b == a + n <= |s|
    ensures s[b..] == s[a..][n..] && s[..b] == s[..a] + s[a..][..n]
  {
  }

  /** Splitting a file at the end of its body keeps every line. */
  lemma BodyHoldsEntries(s: Octets)
    ensures var body := s[..BodyLength(s)];
            IsTerminated(body) && Entries(body) == Entries(s) && BodyLength(body) == |body|
  {
    var body := s[..BodyLength(s)];
    BodyIsTerminated(s);
    assert s == body + Tail(s);
    LinesConcat(body, Tail(s));
    TailConcat(body, []);
    assert IndexOf(Tail(s), NEWLINE) == |Tail(s)|;
  }

  lemma EntriesAreWritable(s: Octets)
    ensures forall i :: 0 <= i < |Entries(s)| ==> IsWritable(Entries(s)[i])
  {
    forall i | 0 <= i < |Lines(s)| ensures IsWritable(Entries(s)[i]) {
      LineIsWritable(Lines(s)[i]);
    }
  }

  lemma LineIsWritable(line: Octets)
    ensures IsWritable(ReadLine(line))
  {
    if line != [] && ParseRecord(line).Some? {
      RecordTextIsCanonical(line);
    }
  }

  // ---------- files ----------

  /** A reading may stop after a terminated prefix and resume: an incremental load reads what a full load reads. */
  lemma ReadResumes(p: Octets, q: Octets, f: Reading)
    requires IsTerminated(p)
    ensures Read(p + q, f) == Read(q, Read(p, f))
  {
    EntriesConcat(p, q);
    ApplyConcat(Entries(p), Entries(q), f);
  }

  lemma ReadMerges(s: Octets, f: Reading)
    requires f.ok
    ensures Read(s, f).ok == WellFormed(s)
    ensures Read(s, f).seen == f.seen + Records(s)
  {
    ApplyMerges(Entries(s), f);
  }

  /** The records of a terminated prefix and of what follows it are merged in file order. */
  lemma RecordsConcat(p: Octets, q: Octets)
    requires IsTerminated(p) && WellFormed(p)
    ensures WellFormed(p + q) == WellFormed(q)
    ensures Records(p + q) == Records(p) + Records(q)
  {
    ReadResumes(p, q, NOTHING);
    ReadMerges(q, Read(p, NOTHING));
  }

  lemma ReadKeepsLowerBound(s: Octets, f: Reading)
    requires LowerBound(f.minDeadline, f.seen)
    ensures LowerBound(Read(s, f).minDeadline, Read(s, f).seen)
  {
    ApplyKeepsLowerBound(Entries(s), f);
  }

  /** Records read from any file have non-empty keys and positive deadlines. */
  lemma ReadIsWritable(s: Octets, f: Reading)
    requires Writable(f.seen)
    ensures Writable(Read(s, f).seen)
  {
    EntriesAreWritable(s);
    ApplyIsWritable(Entries(s), f);
    LineIsWritable(Tail(s));
  }

  /** A file is well formed exactly when its body is: a torn tail never fails a load. */
  lemma BodyDecides(s: Octets)
    ensures WellFormed(s[..BodyLength(s)]) == WellFormed(s)
  {
    BodyHoldsEntries(s);
  }

  function AfterLine(f: Reading, e: Entry): Reading {
    match e
    case Blank => f
    case Holds(r) => Remember(f, r)
    case Corrupt => f.(ok := false)
  }

  /** Reading one terminated line. */
  lemma LineReading(record: Octets, f: Reading)
    requires NEWLINE !in record && f.ok
    ensures IsTerminated(record + [NEWLINE])
    ensures Read(record + [NEWLINE], f) == AfterLine(f, ReadLine(record))
  {
    var line := record + [NEWLINE];
    assert line[|record|] == NEWLINE && line[..|record|] == record && line[|record| + 1..] == [];
    assert IndexOf(line, NEWLINE) == |record|;
    TailConcat(line, []);
    assert Lines(line) == [record];
    assert Entries(line) == [ReadLine(record)];
    assert Entries(line)[1..] == [];
    assert Apply(Entries(line), f) == AfterLine(f, ReadLine(record));
  }

  /** What the line written for a key reads back as. */
  lemma WrittenLine(key: Octets, deadline: uint64, f: Reading)
    requires key != [] && deadline > 0 && f.ok
    ensures IsTerminated(FormatLine(key, deadline))
    ensures Read(FormatLine(key, deadline), f) == Remember(f, Record(key, deadline))
  {
    RecordIsPlain(key, deadline);
    RecordRoundTrip(key, deadline);
    LineReading(FormatRecord(key, deadline), f);
  }

  lemma LineRecords(key: Octets, deadline: uint64)
    requires key != [] && deadline > 0
    ensures var t := FormatLine(key, deadline);
            && IsTerminated(t) && WellFormed(t) && Records(t) == map[key := deadline]
  {
    WrittenLine(key, deadline, NOTHING);
  }

  /** Appending one written line to a clean file adds exactly that record. */
  lemma AppendedLine(s: Octets, key: Octets, deadline: uint64)
    requires IsTerminated(s) && WellFormed(s)
    requires key != [] && deadline > 0
    ensures var t := s + FormatLine(key, deadline);
            && IsTerminated(t) && WellFormed(t) && Records(t) == Records(s)[key := deadline]
  {
    LineRecords(key, deadline);
    RecordsConcat(s, FormatLine(key, deadline));
  }

  /**
   * Appending any part of a line to a clean file: the file stays readable, and a record of
   * another key is kept or becomes permanent.
   */
  lemma TornAppend(s: Octets, key: Octets, deadline: uint64, n: nat, other: Octets)
    requires IsTerminated(s) && WellFormed(s)
    requires key != [] && deadline > 0
    requires n <= |FormatLine(key, deadline)|
    requires other != key
    ensures var t := s + FormatLine(key, deadline)[..n];
            && WellFormed(t)
            && (other in Records(s) ==> other in Records(t) && Records(t)[other] >= Records(s)[other])
  {
    var line := FormatLine(key, deadline);
    if n == |line| {
      assert line[..n] == line;
      AppendedLine(s, key, deadline);
    } else {
      RecordIsPlain(key, deadline);
      assert line[..n] == FormatRecord(key, deadline)[..n];
      TornRecord(key, deadline, n);
      TailRecords(line[..n]);
      RecordsConcat(s, line[..n]);
    }
  }

  /** A file that is only a torn tail holds at most the record the tail parses to. */
  lemma TailRecords(s: Octets)
    requires NEWLINE !in s
    ensures WellFormed(s)
    ensures forall k :: k in Records(s) ==> ParseRecord(s) == Some(Record(k, Records(s)[k]))
  {
    assert IndexOf(s, NEWLINE) == |s|;
    assert Tail(s) == s;
  }

  // ---------- compaction ----------

  /** Byte-wise lexicographic order, the order in which compaction writes keys. */
  predicate LexLeq(a: Octets, b: Octets) {
    a == [] || (b != [] && (a[0] < b[0] || (a[0] == b[0] && LexLeq(a[1..], b[1..]))))
  }

  lemma {:induction false} LexTotal(a: Octets, b: Octets)
    ensures LexLeq(a, b) || LexLeq(b, a)
  {
    if a != [] && b != [] && a[0] == b[0] {
      LexTotal(a[1..], b[1..]);
    }
  }

  lemma {:induction false} LexTransitive(a: Octets, b: Octets, c: Octets)
    requires LexLeq(a, b) && LexLeq(b, c)
    ensures LexLeq(a, c)
  {
    if a != [] && a[0] == b[0] && b[0] == c[0] {
      LexTransitive(a[1..], b[1..], c[1..]);
    }
  }

  lemma {:induction false} LexAntisymmetric(a: Octets, b: Octets)
    requires LexLeq(a, b) && LexLeq(b, a)
    ensures a == b
  {
    if a != [] {
      LexAntisymmetric(a[1..], b[1..]);
      assert a == [a[0]] + a[1..] && b == [b[0]] + b[1..];
    }
  }

  ghost predicate IsLeast(k: Octets, keys: set<Octets>) {
    k in keys && forall x :: x in keys ==> LexLeq(k, x)
  }

  lemma {:induction false} LeastExists(keys: set<Octets>)
    requires keys != {}
    ensures exists k :: IsLeast(k, keys)
    decreases |keys|
  {
    var k :| k in keys;
    var rest := keys - {k};
    if rest == {} {
      LexTotal(k, k);
      assert keys == {k};
      assert IsLeast(k, keys);
    } else {
      LeastExists(rest);
      var m :| IsLeast(m, rest);
      LexTotal(k, k);
      LexTotal(k, m);
      if LexLeq(k, m) {
        forall x | x in keys ensures LexLeq(k, x) {
          if x != k {
            LexTransitive(k, m, x);
          }
        }
        assert IsLeast(k, keys);
      } else {
        assert IsLeast(m, keys);
      }
    }
  }

  ghost function Least(keys: set<Octets>): (k: Octets)
    requires keys != {}
    ensures IsLeast(k, keys)
  {
    LeastExists(keys);
    var k :| IsLeast(k, keys);
    k
  }

  /** The compacted file: one line per key of `keys`, in key order. */
  ghost function Compacted(keys: set<Octets>, m: Seen): (s: Octets)
    requires keys <= m.Keys
    decreases |keys|
  {
    if keys == {} then []
    else
      var k := Least(keys);
      FormatLine(k, m[k]) + Compacted(keys - {k}, m)
  }

  function Restrict(m: Seen, keys: set<Octets>): (r: Seen)
    requires keys <= m.Keys
  {
    map k | k in keys :: m[k]
  }

  lemma RestrictSplits(m: Seen, keys: set<Octets>, k: Octets)
    requires keys <= m.Keys && k in keys
    ensures Restrict(m, keys) == map[k := m[k]] + Restrict(m, keys - {k})
  {
  }

  /** Reading a compacted file gives back exactly the map it was written from. */
  lemma {:induction false} CompactedRoundTrip(keys: set<Octets>, m: Seen)
    requires keys <= m.Keys && Writable(m)
    ensures var s := Compacted(keys, m);
            IsTerminated(s) && WellFormed(s) && Records(s) == Restrict(m, keys)
    decreases |keys|
  {
    if keys == {} {
      assert Compacted(keys, m) == [];
      assert Records([]) == map[];
    } else {
      var k := Least(keys);
      CompactedRoundTrip(keys - {k}, m);
      LineRecords(k, m[k]);
      RecordsConcat(FormatLine(k, m[k]), Compacted(keys - {k}, m));
      RestrictSplits(m, keys, k);
      assert Compacted(keys, m) == FormatLine(k, m[k]) + Compacted(keys - {k}, m);
    }
  }
}

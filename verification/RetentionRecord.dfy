/** The text form of one retained key: lower-case hex, a tab, a canonical decimal deadline. */
module RetentionRecord {
  import opened Bytes

  const TAB: byte := 9
  const NEWLINE: byte := 10

  datatype Record = Record(key: Octets, deadline: uint64)

  // ---------- hexadecimal ----------

  function HexDigit(n: nat): (c: byte)
    requires n < 16
  {
    if n < 10 then 48 + n else 87 + n
  }

  /** The decoder accepts both letter cases. */
  function HexValue(c: byte): (v: Option<nat>)
    ensures v.Some? ==> v.value < 16
  {
    if 48 <= c <= 57 then Some(c - 48)
    else if 97 <= c <= 102 then Some(c - 87)
    else if 65 <= c <= 70 then Some(c - 55)
    else None
  }

  function HexEncode(key: Octets): (s: Octets)
    ensures |s| == 2 * |key|
  {
    if key == [] then [] else [HexDigit(key[0] / 16), HexDigit(key[0] % 16)] + HexEncode(key[1..])
  }

  function HexDecode(s: Octets): (r: Option<Octets>) {
    if s == [] then Some([])
    else if |s| == 1 then None
    else
      var hi := HexValue(s[0]);
      var lo := HexValue(s[1]);
      var rest := HexDecode(s[2..]);
      if hi.None? || lo.None? || rest.None? then None
      else Some([hi.value * 16 + lo.value] + rest.value)
  }

  lemma {:induction false} HexRoundTrip(key: Octets)
    ensures HexDecode(HexEncode(key)) == Some(key)
  {
    if key != [] {
      HexRoundTrip(key[1..]);
      assert HexEncode(key)[2..] == HexEncode(key[1..]);
      assert key == [key[0]] + key[1..];
    }
  }

  lemma {:induction false} HexIsPlain(key: Octets)
    ensures TAB !in HexEncode(key) && NEWLINE !in HexEncode(key)
  {
    if key != [] {
      HexIsPlain(key[1..]);
    }
  }

  // ---------- decimal ----------

  function FormatUint(n: nat): (s: Octets)
    ensures s != []
  {
    if n < 10 then [48 + n] else FormatUint(n / 10) + [48 + n % 10]
  }

  predicate IsDigit(c: byte) {
    48 <= c <= 57
  }

  predicate AllDigits(s: Octets) {
    forall i :: 0 <= i < |s| ==> IsDigit(s[i])
  }

  function DecimalValue(s: Octets): (n: nat)
    requires AllDigits(s)
  {
    if s == [] then 0 else DecimalValue(s[..|s| - 1]) * 10 + (s[|s| - 1] - 48)
  }

  /** A 64-bit unsigned decimal: digits only, at least one, in range. */
  function ParseUint(s: Octets): (r: Option<uint64>) {
    if s == [] || !AllDigits(s) || DecimalValue(s) > MAX_U64 then None else Some(DecimalValue(s))
  }

  lemma {:induction false} FormatUintDigits(n: nat)
    ensures AllDigits(FormatUint(n)) && DecimalValue(FormatUint(n)) == n
  {
    if n >= 10 {
      FormatUintDigits(n / 10);
      var s := FormatUint(n);
      assert s[..|s| - 1] == FormatUint(n / 10);
    }
  }

  // ---------- one record ----------

  function IndexOf(s: Octets, c: byte): (i: nat)
    ensures i <= |s|
    ensures forall j :: 0 <= j < i ==> s[j] != c
    ensures i < |s| ==> s[i] == c
  {
    if s == [] || s[0] == c then 0 else 1 + IndexOf(s[1..], c)
  }

  function Split(s: Octets, c: byte): (fields: seq<Octets>)
    ensures |fields| >= 1
    decreases |s|
  {
    var i := IndexOf(s, c);
    if i == |s| then [s] else [s[..i]] + Split(s[i + 1..], c)
  }

  function FormatRecord(key: Octets, deadline: uint64): (s: Octets) {
    HexEncode(key) + [TAB] + FormatUint(deadline)
  }

  function FormatLine(key: Octets, deadline: uint64): (s: Octets) {
    FormatRecord(key, deadline) + [NEWLINE]
  }

  /** A record without a deadline field is a legacy entry and never expires. */
  function ParseRecord(record: Octets): (r: Option<Record>) {
    var fields := Split(record, TAB);
    if |fields| > 2 || (|fields| == 2 && fields[1] == []) then None
    else
      var key := HexDecode(fields[0]);
      if key.None? || key.value == [] || HexEncode(key.value) != fields[0] then None
      else if |fields| == 1 then Some(Record(key.value, MAX_U64))
      else
        var deadline := ParseUint(fields[1]);
        if deadline.None? || deadline.value == 0 || FormatUint(deadline.value) != fields[1] then None
        else Some(Record(key.value, deadline.value))
  }

  lemma SplitAtTab(left: Octets, right: Octets)
    requires TAB !in left
    ensures Split(left + [TAB] + right, TAB) == [left] + Split(right, TAB)
  {
    var s := left + [TAB] + right;
    var i := IndexOf(s, TAB);
    assert s[|left|] == TAB;
    assert i == |left|;
    assert s[..i] == left && s[i + 1..] == right;
  }

  lemma FormatUintIsPlain(n: nat)
    ensures TAB !in FormatUint(n) && NEWLINE !in FormatUint(n)
  {
    FormatUintDigits(n);
  }

  /** What the cache writes, it reads back: the round trip of one record. */
  lemma RecordRoundTrip(key: Octets, deadline: uint64)
    requires key != [] && deadline > 0
    ensures ParseRecord(FormatRecord(key, deadline)) == Some(Record(key, deadline))
  {
    HexIsPlain(key);
    HexRoundTrip(key);
    FormatUintDigits(deadline);
    FormatUintIsPlain(deadline);
    SplitAtTab(HexEncode(key), FormatUint(deadline));
    assert Split(FormatUint(deadline), TAB) == [FormatUint(deadline)];
  }

  /** Only canonical text is accepted: apart from legacy entries the text of a record is unique. */
  lemma RecordTextIsCanonical(record: Octets)
    requires ParseRecord(record).Some?
    ensures var r := ParseRecord(record).value;
            && r.key != [] && r.deadline > 0
            && (record == FormatRecord(r.key, r.deadline) || (record == HexEncode(r.key) && r.deadline == MAX_U64))
  {
    var i := IndexOf(record, TAB);
    if i < |record| {
      assert record == record[..i] + [TAB] + record[i + 1..];
      var rest := Split(record[i + 1..], TAB);
      assert Split(record, TAB) == [record[..i]] + rest;
      assert |rest| == 1;
      assert rest == [record[i + 1..]];
    }
  }

  lemma RecordIsPlain(key: Octets, deadline: uint64)
    ensures NEWLINE !in FormatRecord(key, deadline)
  {
    HexIsPlain(key);
    FormatUintIsPlain(deadline);
  }

  /**
   * An append torn after `n` octets reads back as nothing, as the same key, or as an entry
   * that never expires. It cannot shorten the retention of a different key.
   */
  lemma TornRecord(key: Octets, deadline: uint64, n: nat)
    requires n <= |FormatRecord(key, deadline)|
    ensures var r := ParseRecord(FormatRecord(key, deadline)[..n]);
            r.Some? && r.value.key != key ==> r.value.deadline == MAX_U64
  {
    var hex := HexEncode(key);
    var torn := FormatRecord(key, deadline)[..n];
    HexIsPlain(key);
    if n <= |hex| {
      assert torn == hex[..n];
      assert TAB !in torn;
      assert Split(torn, TAB) == [torn];
    } else {
      var digits := torn[|hex| + 1..];
      assert torn == hex + [TAB] + digits;
      SplitAtTab(hex, digits);
      HexRoundTrip(key);
    }
  }

  /** A non-empty prefix of a positive decimal is the decimal of a positive number no larger. */
  lemma {:induction false} DecimalPrefix(n: nat, j: nat) returns (m: nat)
    requires 0 < n && 0 < j <= |FormatUint(n)|
    ensures 0 < m <= n && FormatUint(n)[..j] == FormatUint(m)
  {
    var s := FormatUint(n);
    if j == |s| {
      assert s[..j] == s;
      m := n;
    } else {
      m := DecimalPrefix(n / 10, j);
      assert s[..j] == FormatUint(n / 10)[..j];
    }
  }

  /** A piece that parses to an entry with a deadline reaches into the deadline. */
  lemma DeadlinePiece(key: Octets, deadline: uint64, m: nat)
    requires m <= |FormatRecord(key, deadline)|
    ensures var r := ParseRecord(FormatRecord(key, deadline)[..m]);
            r.Some? && r.value.deadline != MAX_U64 ==> m > |HexEncode(key)| + 1
  {
    var hex, torn := HexEncode(key), FormatRecord(key, deadline)[..m];
    HexIsPlain(key);
    if m <= |hex| {
      assert torn == hex[..m];
      assert Split(torn, TAB) == [torn];
    } else if m == |hex| + 1 {
      assert torn == hex + [TAB] + [];
      SplitAtTab(hex, []);
      assert Split([], TAB) == [[]];
    }
  }

  /** Once a torn record has its deadline's first digit, every longer piece of it parses to its key. */
  lemma TornKeepsKey(key: Octets, deadline: uint64, m: nat, n: nat)
    requires key != [] && deadline > 0 && m <= n <= |FormatRecord(key, deadline)|
    requires var r := ParseRecord(FormatRecord(key, deadline)[..m]); r.Some? && r.value.deadline != MAX_U64
    ensures var r := ParseRecord(FormatRecord(key, deadline)[..n]); r.Some? && r.value.key == key
  {
    var hex, record := HexEncode(key), FormatRecord(key, deadline);
    DeadlinePiece(key, deadline, m);
    var j := n - |hex| - 1;
    var shorter := DecimalPrefix(deadline, j);
    assert record[..n] == hex + [TAB] + FormatUint(deadline)[..j];
    RecordRoundTrip(key, shorter);
  }

  /** A cut record parses, if at all, to the same key or to an entry that never expires. */
  lemma CutRecord(record: Octets, n: nat)
    requires ParseRecord(record).Some? && n <= |record| && ParseRecord(record[..n]).Some?
    ensures ParseRecord(record[..n]).value.deadline == MAX_U64
            || ParseRecord(record[..n]).value.key == ParseRecord(record).value.key
  {
    var r := ParseRecord(record).value;
    RecordTextIsCanonical(record);
    if record == FormatRecord(r.key, r.deadline) {
      TornRecord(r.key, r.deadline, n);
    } else {
      HexIsPlain(r.key);
      assert TAB !in record[..n];
      assert Split(record[..n], TAB) == [record[..n]];
    }
  }
}

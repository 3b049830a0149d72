/** Synthetic addresses for names: one address per name, found by linear probing from a hash. */
module FakeIp {
  import opened Arith
  import opened Bytes

  // ---------- canonical names ----------

  predicate IsSpace(c: char) {
    c == ' ' || '\t' <= c <= '\r'
  }

  function LowerChar(c: char): char {
    if 'A' <= c <= 'Z' then c + ' ' else c
  }

  function Lower(s: string): (r: string)
    ensures |r| == |s|
    ensures forall i :: 0 <= i < |s| ==> r[i] == LowerChar(s[i])
  {
    seq(|s|, i requires 0 <= i < |s| => LowerChar(s[i]))
  }

  function TrimLeft(s: string): (r: string)
    ensures r != "" ==> !IsSpace(r[0])
    ensures s != "" && !IsSpace(s[0]) ==> r == s
  {
    if s != "" && IsSpace(s[0]) then TrimLeft(s[1..]) else s
  }

  function TrimRight(s: string): (r: string)
    ensures r <= s
    ensures r != "" ==> !IsSpace(r[|r| - 1])
    ensures s != "" && !IsSpace(s[|s| - 1]) ==> r == s
  {
    if s != "" && IsSpace(s[|s| - 1]) then TrimRight(s[..|s| - 1]) else s
  }

  function DropDot(s: string): string {
    if s != "" && s[|s| - 1] == '.' then s[..|s| - 1] else s
  }

  function CanonicalDomain(domain: string): string {
    var d := DropDot(Lower(TrimRight(TrimLeft(domain))));
    if d == "." then "" else d
  }

  predicate IsLower(s: string) {
    forall i :: 0 <= i < |s| ==> LowerChar(s[i]) == s[i]
  }

  /** A canonical name starts with no space and holds no capital. */
  lemma CanonicalShape(domain: string)
    ensures var n := CanonicalDomain(domain); IsLower(n) && (n != "" ==> !IsSpace(n[0]))
  {
    var t := TrimRight(TrimLeft(domain));
    if t != "" {
      assert TrimLeft(domain)[0] == t[0];
    }
  }

  /** The name ends in neither dot nor space. */
  predicate Settled(name: string) {
    name != "" && name[|name| - 1] != '.' && !IsSpace(name[|name| - 1])
  }

  lemma CanonicalAgainIff(n: string)
    requires IsLower(n) && n != "" && !IsSpace(n[0])
    ensures CanonicalDomain(n) == n <==> Settled(n)
  {
    assert TrimLeft(n) == n;
    if IsSpace(n[|n| - 1]) {
      var t := TrimRight(n);
      assert |t| < |n|;
      assert |CanonicalDomain(n)| <= |t|;
    } else {
      assert TrimRight(n) == n;
      assert Lower(n) == n;
    }
  }

  /**
   * Canonicalising is not idempotent: it is repeated without effect exactly when the name ends in neither dot nor
   * space.
   */
  lemma CanonicalTwice(domain: string)
    requires CanonicalDomain(domain) != ""
    ensures var n := CanonicalDomain(domain); CanonicalDomain(n) == n <==> Settled(n)
  {
    CanonicalShape(domain);
    CanonicalAgainIff(CanonicalDomain(domain));
  }

  // ---------- networks ----------

  /** A parsed prefix: the address bits below the mask are zero. */
  datatype Network = V4(base: nat, ones: nat) | V6

  predicate WellFormed(n: Network) {
    n.V4? ==> n.ones <= 32 && n.base + Pow2(32 - n.ones) <= 0x1_0000_0000
  }

  function Span(n: Network): nat
    requires n.V4? && WellFormed(n)
  {
    Pow2(32 - n.ones)
  }

  /** Networks of more than two addresses lose the first and the last. */
  function FirstOffset(n: Network): nat
    requires n.V4? && WellFormed(n)
  {
    if Span(n) > 2 then 1 else 0
  }

  function Usable(n: Network): (u: nat)
    requires n.V4? && WellFormed(n)
    ensures u > 0 && FirstOffset(n) + u <= Span(n)
  {
    if Span(n) > 2 then Span(n) - 2 else Span(n)
  }

  /** The addresses that may be assigned. */
  predicate IsUsable(n: Network, ip: nat)
    requires n.V4? && WellFormed(n)
  {
    n.base + FirstOffset(n) <= ip < n.base + FirstOffset(n) + Usable(n)
  }

  /** The address of probe number `probe`, in 32-bit arithmetic. */
  function Candidate(n: Network, start: nat, probe: nat): nat
    requires n.V4? && WellFormed(n)
  {
    (n.base + FirstOffset(n) + (start + probe) % Usable(n)) % 0x1_0000_0000
  }

  lemma CandidateUsable(n: Network, start: nat, probe: nat)
    requires n.V4? && WellFormed(n)
    ensures IsUsable(n, Candidate(n, start, probe))
    ensures Candidate(n, start, probe) == n.base + FirstOffset(n) + (start + probe) % Usable(n)
  {
  }

  lemma WrapsOnce(a: nat, u: nat)
    requires u > 0 && a < 2 * u
    ensures a % u == if a < u then a else a - u
  {
  }

  /** The probes visit every usable address. */
  lemma ProbesCover(n: Network, start: nat, ip: nat)
    requires n.V4? && WellFormed(n) && start < Usable(n) && IsUsable(n, ip)
    ensures exists probe: nat :: probe < Usable(n) && Candidate(n, start, probe) == ip
  {
    var offset := ip - n.base - FirstOffset(n);
    var u := Usable(n);
    var probe := if start <= offset then offset - start else offset + u - start;
    WrapsOnce(start + probe, u);
    CandidateUsable(n, start, probe);
    assert probe < u && Candidate(n, start, probe) == ip;
  }

  // ---------- assignment ----------

  datatype Mapping = Mapping(domain: string, answers: seq<string>)

  datatype Tables = Tables(byName: map<string, nat>, byIP: map<nat, Mapping>)

  ghost predicate Exhausted(n: Network, t: Tables)
    requires n.V4? && WellFormed(n)
  {
    forall ip :: IsUsable(n, ip) ==> ip in t.byIP
  }

  /** The first probe whose address is free. */
  function FirstFree(n: Network, t: Tables, start: nat, probe: nat): (r: Option<nat>)
    requires n.V4? && WellFormed(n) && probe <= Usable(n)
    ensures r.Some? ==> IsUsable(n, r.value) && r.value !in t.byIP
    ensures r.None? ==> forall p: nat :: probe <= p < Usable(n) ==> Candidate(n, start, p) in t.byIP
    decreases Usable(n) - probe
  {
    if probe == Usable(n) then None
    else
      CandidateUsable(n, start, probe);
      if Candidate(n, start, probe) !in t.byIP then Some(Candidate(n, start, probe))
      else FirstFree(n, t, start, probe + 1)
  }

  datatype Assigned = Assigned(tables: Tables, ip: Option<nat>)

  /** `hash` is the 32-bit value the probe sequence of a name starts from. */
  function Assign(n: Network, t: Tables, hash: string -> nat, domain: string, answers: seq<string>): Assigned
    requires WellFormed(n)
  {
    var name := CanonicalDomain(domain);
    if name == "" then Assigned(t, None)
    else
      var stored := Mapping(CanonicalDomain(name), answers);
      if name in t.byName then
        Assigned(t.(byIP := t.byIP[t.byName[name] := stored]), Some(t.byName[name]))
      else if n.V6? then Assigned(t, None)
      else
        match FirstFree(n, t, hash(name) % Usable(n), 0)
        case None => Assigned(t, None)
        case Some(ip) => Assigned(Tables(t.byName[name := ip], t.byIP[ip := stored]), Some(ip))
  }

  /** Names and addresses correspond one to one, and every address is usable. */
  ghost predicate Inv(n: Network, t: Tables)
    requires WellFormed(n)
  {
    && (n.V6? ==> t == Tables(map[], map[]))
    && (forall x :: x in t.byName ==>
          t.byName[x] in t.byIP && t.byIP[t.byName[x]].domain == CanonicalDomain(x)
            && (n.V4? ==> IsUsable(n, t.byName[x])))
    && (forall x, y :: x in t.byName && y in t.byName && t.byName[x] == t.byName[y] ==> x == y)
    && (forall ip :: ip in t.byIP ==> exists x :: x in t.byName && t.byName[x] == ip)
  }

  ghost predicate Extends(u: Tables, t: Tables) {
    forall x :: x in t.byName ==> x in u.byName && u.byName[x] == t.byName[x]
  }

  lemma AddKeepsInv(n: Network, t: Tables, name: string, ip: nat, m: Mapping)
    requires n.V4? && WellFormed(n) && Inv(n, t) && IsUsable(n, ip)
    requires name !in t.byName && ip !in t.byIP && m.domain == CanonicalDomain(name)
    ensures var u := Tables(t.byName[name := ip], t.byIP[ip := m]); Inv(n, u) && Extends(u, t)
  {
    var u := Tables(t.byName[name := ip], t.byIP[ip := m]);
    assert name in u.byName && u.byName[name] == ip;
    forall a | a in u.byIP ensures exists x :: x in u.byName && u.byName[x] == a {
      if a != ip {
        var x :| x in t.byName && t.byName[x] == a;
        assert x in u.byName && u.byName[x] == a;
      }
    }
  }

  lemma RefreshKeepsInv(n: Network, t: Tables, name: string, m: Mapping)
    requires WellFormed(n) && Inv(n, t) && name in t.byName && m.domain == CanonicalDomain(name)
    ensures var u := t.(byIP := t.byIP[t.byName[name] := m]); Inv(n, u) && Extends(u, t)
  {
    var u := t.(byIP := t.byIP[t.byName[name] := m]);
    forall x | x in u.byName ensures u.byName[x] in u.byIP && u.byIP[u.byName[x]].domain == CanonicalDomain(x) {
      assert t.byIP[t.byName[x]].domain == CanonicalDomain(x);
    }
  }

  lemma AssignKeepsInv(n: Network, t: Tables, hash: string -> nat, domain: string, answers: seq<string>)
    requires WellFormed(n) && Inv(n, t)
    ensures var u := Assign(n, t, hash, domain, answers).tables; Inv(n, u) && Extends(u, t)
  {
    var name := CanonicalDomain(domain);
    if name != "" {
      var stored := Mapping(CanonicalDomain(name), answers);
      if name in t.byName {
        RefreshKeepsInv(n, t, name, stored);
      } else if n.V4? {
        var ip := FirstFree(n, t, hash(name) % Usable(n), 0);
        if ip.Some? {
          AddKeepsInv(n, t, name, ip.value, stored);
        }
      }
    }
  }

  /** Assignment of a new name fails exactly when every usable address is taken. */
  lemma AssignFailsIff(n: Network, t: Tables, hash: string -> nat, domain: string, answers: seq<string>)
    requires n.V4? && WellFormed(n) && Inv(n, t) && CanonicalDomain(domain) != ""
    ensures Assign(n, t, hash, domain, answers).ip.None? <==> CanonicalDomain(domain) !in t.byName && Exhausted(n, t)
  {
    var name := CanonicalDomain(domain);
    if name !in t.byName {
      var start := hash(name) % Usable(n);
      if FirstFree(n, t, start, 0).None? {
        forall ip | IsUsable(n, ip) ensures ip in t.byIP {
          ProbesCover(n, start, ip);
        }
      }
    }
  }

  // ---------- runs ----------

  datatype Request = Request(domain: string, answers: seq<string>)

  function AssignAll(n: Network, t: Tables, hash: string -> nat, requests: seq<Request>): Tables
    requires WellFormed(n)
    decreases |requests|
  {
    if requests == [] then t
    else
      var last := requests[|requests| - 1];
      Assign(n, AssignAll(n, t, hash, requests[..|requests| - 1]), hash, last.domain, last.answers).tables
  }

  const NO_TABLES := Tables(map[], map[])

  /** After any assignments the tables correspond, and a name keeps the address it once got. */
  lemma {:induction false} AssignmentsAreStable(n: Network, t: Tables, hash: string -> nat, requests: seq<Request>)
    requires WellFormed(n) && Inv(n, t)
    ensures var u := AssignAll(n, t, hash, requests);
            Inv(n, u) && Extends(u, t)
    decreases |requests|
  {
    if requests != [] {
      var before, last := requests[..|requests| - 1], requests[|requests| - 1];
      AssignmentsAreStable(n, t, hash, before);
      AssignKeepsInv(n, AssignAll(n, t, hash, before), hash, last.domain, last.answers);
    }
  }

  /** The canonical names of the requests that got an address. */
  function AcceptedNames(n: Network, t: Tables, hash: string -> nat, requests: seq<Request>): set<string>
    requires WellFormed(n)
    decreases |requests|
  {
    if requests == [] then {}
    else
      var before, last := requests[..|requests| - 1], requests[|requests| - 1];
      AcceptedNames(n, t, hash, before)
      + if Assign(n, AssignAll(n, t, hash, before), hash, last.domain, last.answers).ip.Some?
        then {CanonicalDomain(last.domain)} else {}
  }

  lemma {:induction false} AcceptedAreNamed(n: Network, t: Tables, hash: string -> nat, requests: seq<Request>)
    requires WellFormed(n)
    ensures AssignAll(n, t, hash, requests).byName.Keys == t.byName.Keys + AcceptedNames(n, t, hash, requests)
    ensures forall x :: x in AcceptedNames(n, t, hash, requests) ==> IsLower(x) && x != "" && !IsSpace(x[0])
    decreases |requests|
  {
    if requests != [] {
      var before, last := requests[..|requests| - 1], requests[|requests| - 1];
      AcceptedAreNamed(n, t, hash, before);
      CanonicalShape(last.domain);
      AssignNames(n, AssignAll(n, t, hash, before), hash, last.domain, last.answers);
    }
  }

  /** An accepted request adds its canonical name, which is not empty; any other adds none. */
  lemma AssignNames(n: Network, t: Tables, hash: string -> nat, domain: string, answers: seq<string>)
    requires WellFormed(n)
    ensures var a := Assign(n, t, hash, domain, answers);
            && a.tables.byName.Keys == t.byName.Keys + (if a.ip.Some? then {CanonicalDomain(domain)} else {})
            && (a.ip.Some? ==> CanonicalDomain(domain) != "")
  {
  }

  /** The stored domain of an address leads back to the name that owns it. */
  ghost predicate Inverse(t: Tables) {
    forall x :: x in t.byName ==> t.byName[x] in t.byIP && t.byIP[t.byName[x]].domain == x
  }

  /** After any requests the tables are inverse exactly when every accepted name ends in neither dot nor space. */
  lemma InverseIff(n: Network, hash: string -> nat, requests: seq<Request>)
    requires WellFormed(n)
    ensures Inverse(AssignAll(n, NO_TABLES, hash, requests))
            <==> forall x :: x in AcceptedNames(n, NO_TABLES, hash, requests) ==> Settled(x)
  {
    var u, names := AssignAll(n, NO_TABLES, hash, requests), AcceptedNames(n, NO_TABLES, hash, requests);
    AssignmentsAreStable(n, NO_TABLES, hash, requests);
    AcceptedAreNamed(n, NO_TABLES, hash, requests);
    forall x | x in names ensures u.byIP[u.byName[x]].domain == x <==> Settled(x) {
      assert x in u.byName;
      CanonicalAgainIff(x);
    }
    assert u.byName.Keys == names;
  }

  /**
   * Each accepted name is found back from its address, and only that one, exactly when it ends in neither dot nor
   * space.
   */
  lemma RoundTrip(n: Network, hash: string -> nat, requests: seq<Request>, name: string)
    requires WellFormed(n) && name in AcceptedNames(n, NO_TABLES, hash, requests)
    ensures var u := AssignAll(n, NO_TABLES, hash, requests);
            && name in u.byName && u.byName[name] in u.byIP
            && (u.byIP[u.byName[name]].domain == name <==> Settled(name))
            && forall y :: y in u.byName && u.byName[y] == u.byName[name] ==> y == name
  {
    AssignmentsAreStable(n, NO_TABLES, hash, requests);
    AcceptedAreNamed(n, NO_TABLES, hash, requests);
    CanonicalAgainIff(name);
  }

  /** The answers of the last request for a name. */
  function LatestAnswers(requests: seq<Request>, name: string): Option<seq<string>> {
    if requests == [] then None
    else
      var last := requests[|requests| - 1];
      if CanonicalDomain(last.domain) == name then Some(last.answers)
      else LatestAnswers(requests[..|requests| - 1], name)
  }

  /** Every name has an address of its own. */
  ghost predicate Apart(t: Tables) {
    && (forall x :: x in t.byName ==> t.byName[x] in t.byIP)
    && (forall x, y :: x in t.byName && y in t.byName && t.byName[x] == t.byName[y] ==> x == y)
  }

  lemma AssignmentsAreApart(n: Network, hash: string -> nat, requests: seq<Request>)
    requires WellFormed(n)
    ensures Apart(AssignAll(n, NO_TABLES, hash, requests))
  {
    AssignmentsAreStable(n, NO_TABLES, hash, requests);
  }

  lemma OtherNamesStay(n: Network, t: Tables, hash: string -> nat, domain: string, answers: seq<string>, x: string)
    requires WellFormed(n) && Apart(t) && x != CanonicalDomain(domain)
    requires x in Assign(n, t, hash, domain, answers).tables.byName
    ensures var u := Assign(n, t, hash, domain, answers).tables;
            && x in t.byName && u.byName[x] == t.byName[x] && u.byName[x] in u.byIP
            && u.byIP[u.byName[x]] == t.byIP[t.byName[x]]
  {
  }

  lemma OwnNameIsStored(n: Network, t: Tables, hash: string -> nat, domain: string, answers: seq<string>)
    requires WellFormed(n) && CanonicalDomain(domain) in Assign(n, t, hash, domain, answers).tables.byName
             && "" !in t.byName
    ensures var u := Assign(n, t, hash, domain, answers).tables;
            var name := CanonicalDomain(domain);
            u.byName[name] in u.byIP && u.byIP[u.byName[name]].answers == answers
  {
  }

  /** An address answers with what was last stored for its name. */
  lemma {:induction false} AnswersAreLatest(n: Network, hash: string -> nat, requests: seq<Request>, name: string)
    requires WellFormed(n) && name in AssignAll(n, NO_TABLES, hash, requests).byName
    ensures var u := AssignAll(n, NO_TABLES, hash, requests);
            u.byName[name] in u.byIP && LatestAnswers(requests, name) == Some(u.byIP[u.byName[name]].answers)
    decreases |requests|
  {
    if requests != [] {
      var before, last := requests[..|requests| - 1], requests[|requests| - 1];
      var t := AssignAll(n, NO_TABLES, hash, before);
      if name == CanonicalDomain(last.domain) {
        AcceptedAreNamed(n, NO_TABLES, hash, before);
        OwnNameIsStored(n, t, hash, last.domain, last.answers);
      } else {
        AssignmentsAreApart(n, hash, before);
        OtherNamesStay(n, t, hash, last.domain, last.answers, name);
        AnswersAreLatest(n, hash, before, name);
      }
    }
  }

  /** A name with two trailing dots is assigned, but its address answers for a different name. */
  lemma TwoDots(n: Network, hash: string -> nat)
    requires n.V4? && WellFormed(n)
    ensures var a := Assign(n, NO_TABLES, hash, "a..", []);
            && a.ip.Some? && "a." in a.tables.byName
            && a.tables.byIP[a.ip.value].domain == "a"
            && !Inverse(a.tables)
  {
    var d := "a..";
    assert Lower(d) == d && TrimRight(TrimLeft(d)) == d;
    assert DropDot(d) == "a.";
    assert CanonicalDomain(d) == "a.";
    assert Lower("a.") == "a." && TrimRight(TrimLeft("a.")) == "a." && DropDot("a.") == "a";
    assert CanonicalDomain("a.") == "a";
    AssignFailsIff(n, NO_TABLES, hash, d, []);
    assert IsUsable(n, n.base + FirstOffset(n));
    var a := Assign(n, NO_TABLES, hash, d, []);
    assert "a." in a.tables.byName && a.tables.byName["a."] == a.ip.value;
  }

  // ---------- the object ----------

  class FakeIPAllocator {
    const network: Network
    const hash: string -> nat
    var byName: map<string, nat>
    var byIP: map<nat, Mapping>

    ghost function View(): Tables
      reads this
    {
      Tables(byName, byIP)
    }

    ghost predicate Valid()
      reads this
    {
      WellFormed(network) && Inv(network, View())
    }

    constructor (network: Network, hash: string -> nat)
      requires WellFormed(network)
      ensures this.network == network && this.hash == hash && View() == NO_TABLES && Valid()
    {
      this.network, this.hash, byName, byIP := network, hash, map[], map[];
    }

    method NextAvailableIP(name: string) returns (ip: Option<nat>)
      requires WellFormed(network)
      ensures network.V6? ==> ip == None
      ensures network.V4? ==> ip == FirstFree(network, View(), hash(name) % Usable(network), 0)
    {
      if network.V6? {
        return None;
      }
      var usable := Usable(network);
      var start := hash(name) % usable;
      var probe := 0;
      while probe < usable
        invariant 0 <= probe <= usable
        invariant FirstFree(network, View(), start, 0) == FirstFree(network, View(), start, probe)
      {
        var candidate := Candidate(network, start, probe);
        if candidate !in byIP {
          return Some(candidate);
        }
        probe := probe + 1;
      }
      return None;
    }

    method AssignIP(domain: string, answers: seq<string>) returns (ip: Option<nat>)
      requires Valid()
      modifies this
      ensures Valid()
      ensures var a := Assign(network, old(View()), hash, domain, answers); View() == a.tables && ip == a.ip
    {
      AssignKeepsInv(network, View(), hash, domain, answers);
      var name := CanonicalDomain(domain);
      if name == "" {
        return None;
      }
      if name in byName {
        byIP := byIP[byName[name] := Mapping(CanonicalDomain(name), answers)];
        return Some(byName[name]);
      }
      ip := NextAvailableIP(name);
      if ip.None? {
        return None;
      }
      byName := byName[name := ip.value];
      byIP := byIP[ip.value := Mapping(CanonicalDomain(name), answers)];
    }

    /**
     * An address has a mapping exactly when a name owns it, and then it names that one owner, canonicalised once
     * more.
     */
    method MappingForFakeIP(ip: nat) returns (m: Option<Mapping>)
      requires Valid()
      ensures m.Some? <==> exists x :: x in byName && byName[x] == ip
      ensures m.Some? ==> forall x, y :: x in byName && y in byName && byName[x] == byName[y] == ip ==> x == y
      ensures forall x :: x in byName && byName[x] == ip ==> m.Some? && m.value.domain == CanonicalDomain(x)
      ensures m.Some? ==> m.value == byIP[ip]
    {
      m := if ip in byIP then Some(byIP[ip]) else None;
    }
  }
}

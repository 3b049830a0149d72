/** Traffic material of a receiver: pinned while an open uses it, zeroed once retired and released. */
module Protectors {
  import opened Bytes

  datatype Space = Space(route: uint64, hop: byte, direction: byte, phase: byte)

  /** What a protector is built from. */
  datatype Material = Material(suite: uint64, key: Octets, iv: Octets)

  /** Protectors are told apart by identity, as pointers are. */
  type Id = nat
  const MAIN: Id := 0

  /**
   * `uses`, `retired`, `table` and `destroyed` are the receiver's own fields. `built` records what
   * each protector was built from, `zeroed` whose material has been erased, `pins` the opens in
   * progress and the protector each of them holds.
   */
  datatype State = State(
    uses: map<Id, nat>, retired: set<Id>, table: map<Space, Id>, destroyed: bool,
    built: map<Id, Material>, zeroed: set<Id>, pins: multiset<Id>)

  function Start(m: Material): State {
    State(map[], {}, map[], false, map[MAIN := m], {}, multiset{})
  }

  function Uses(s: State, p: Id): nat {
    if p in s.uses then s.uses[p] else 0
  }

  function Retire(s: State, p: Id): State {
    if Uses(s, p) == 0 then s.(zeroed := s.zeroed + {p}) else s.(retired := s.retired + {p})
  }

  /** Pins a protector for one open. */
  function Pin(s: State, p: Id): State {
    s.(uses := s.uses[p := Uses(s, p) + 1], pins := s.pins + multiset{p})
  }

  datatype Acquired = Acquired(state: State, protector: Option<Id>)

  function AcquireMain(s: State): Acquired {
    if s.destroyed then Acquired(s, None) else Acquired(Pin(s, MAIN), Some(MAIN))
  }

  function Drop(s: State, space: Space): State {
    if space in s.table then Retire(s.(table := s.table - {space}), s.table[space]) else s
  }

  /**
   * The protector for a packet under a direction state: the cached one if it was built from the
   * same material, otherwise a new one that replaces it. `pointer` is the new identity; `builds` says
   * whether the AEAD accepts the key.
   */
  function AcquireDirection(s: State, space: Space, m: Material, pointer: Id, builds: bool): Acquired {
    if s.destroyed then Acquired(s, None)
    else if space in s.table && s.table[space] in s.built && s.built[s.table[space]] == m then
      Acquired(Pin(s, s.table[space]), Some(s.table[space]))
    else
      var t := Drop(s, space);
      if !builds then Acquired(t, None)
      else Acquired(Pin(t.(table := t.table[space := pointer], built := t.built[pointer := m]), pointer), Some(pointer))
  }

  function Release(s: State, p: Id): State {
    var t := s.(pins := s.pins - multiset{p});
    if Uses(s, p) > 1 then t.(uses := s.uses[p := Uses(s, p) - 1])
    else
      var u := t.(uses := s.uses - {p});
      if p in s.retired then u.(retired := s.retired - {p}, zeroed := s.zeroed + {p}) else u
  }

  function RetireAll(s: State, ids: set<Id>): State {
    s.(zeroed := s.zeroed + (set p | p in ids && Uses(s, p) == 0),
       retired := s.retired + (set p | p in ids && Uses(s, p) != 0))
  }

  lemma RetireAllStep(s: State, ids: set<Id>, p: Id)
    ensures RetireAll(s, ids + {p}) == Retire(RetireAll(s, ids), p)
  {
    assert (set q | q in ids + {p} && Uses(s, q) == 0) ==
           (set q | q in ids && Uses(s, q) == 0) + (if Uses(s, p) == 0 then {p} else {});
    assert (set q | q in ids + {p} && Uses(s, q) != 0) ==
           (set q | q in ids && Uses(s, q) != 0) + (if Uses(s, p) != 0 then {p} else {});
  }

  lemma DestroyStep(s: State, all: set<Id>, pending: set<Id>, p: Id)
    requires pending <= all && p in pending
    ensures RetireAll(s, all - (pending - {p})) == Retire(RetireAll(s, all - pending), p)
  {
    RetireAllStep(s, all - pending, p);
    assert all - (pending - {p}) == all - pending + {p};
  }

  function Destroy(s: State): State {
    RetireAll(s, s.table.Values + {MAIN}).(table := map[], destroyed := true)
  }

  // ---------- invariant ----------

  /** The use counts are exactly the pins. */
  ghost predicate CountInv(s: State) {
    && (forall p :: Uses(s, p) == s.pins[p])
    && (forall p :: p in s.uses ==> s.uses[p] > 0)
  }

  /** Pinned material is not zeroed; a retired protector still has a pin; all material is accounted for. */
  ghost predicate MaterialInv(s: State) {
    && MAIN in s.built && s.zeroed <= s.built.Keys
    && (forall p :: p in s.pins ==> p in s.built && p !in s.zeroed)
    && (forall p :: p in s.retired ==> p in s.pins)
    && (forall p :: p in s.built ==> p == MAIN || p in s.table.Values || p in s.retired || p in s.zeroed)
    && (MAIN in s.retired || MAIN in s.zeroed <==> s.destroyed)
  }

  /** Cached protectors are neither retired nor zeroed, and belong to one space each. */
  ghost predicate CacheInv(s: State) {
    && (forall x :: x in s.table ==>
          s.table[x] in s.built && s.table[x] != MAIN && s.table[x] !in s.retired && s.table[x] !in s.zeroed)
    && (forall x, y :: x in s.table && y in s.table && s.table[x] == s.table[y] ==> x == y)
    && (s.destroyed ==> s.table == map[])
  }

  ghost predicate Inv(s: State) {
    CountInv(s) && MaterialInv(s) && CacheInv(s)
  }

  lemma ReleaseCounts(s: State, p: Id)
    requires CountInv(s) && p in s.pins
    ensures CountInv(Release(s, p))
  {
    var t := Release(s, p);
    assert Uses(s, p) == s.pins[p];
    forall q ensures Uses(t, q) == t.pins[q] {
      assert Uses(s, q) == s.pins[q];
    }
  }

  lemma ReleaseKeepsInv(s: State, p: Id)
    requires Inv(s) && p in s.pins
    ensures Inv(Release(s, p))
    ensures p in s.retired && s.pins[p] == 1 ==> p in Release(s, p).zeroed
  {
    ReleaseCounts(s, p);
    assert Uses(s, p) == s.pins[p];
    var t := Release(s, p);
    assert forall q :: q in t.pins <==> q in s.pins && (q == p ==> s.pins[p] > 1);
    assert MaterialInv(t);
  }

  lemma PinKeepsInv(s: State, p: Id)
    requires Inv(s) && !s.destroyed && p in s.built && (p == MAIN || p in s.table.Values)
    ensures Inv(Pin(s, p))
  {
    var t := Pin(s, p);
    forall q ensures Uses(t, q) == t.pins[q] {
      assert Uses(s, q) == s.pins[q];
    }
    assert MaterialInv(t);
  }

  lemma DropAccounts(s: State, space: Space)
    requires Inv(s) && space in s.table
    ensures var t := Drop(s, space);
            forall q :: q in t.built ==> q == MAIN || q in t.table.Values || q in t.retired || q in t.zeroed
  {
    var t := Drop(s, space);
    forall q | q in t.built ensures q == MAIN || q in t.table.Values || q in t.retired || q in t.zeroed {
      if q in s.table.Values && q != s.table[space] {
        var x :| x in s.table && s.table[x] == q;
        assert x in t.table && t.table[x] == q;
      }
    }
  }

  lemma DropKeepsInv(s: State, space: Space)
    requires Inv(s)
    ensures Inv(Drop(s, space)) && space !in Drop(s, space).table
    ensures Drop(s, space).destroyed == s.destroyed && Drop(s, space).built == s.built
  {
    if space in s.table {
      DropAccounts(s, space);
      var t := Drop(s, space);
      assert Uses(s, s.table[space]) == s.pins[s.table[space]];
      assert CountInv(t) by {
        forall q ensures Uses(t, q) == t.pins[q] {
          assert Uses(s, q) == s.pins[q];
        }
      }
      assert MaterialInv(t);
    }
  }

  lemma AcquireKeepsInv(s: State, space: Space, m: Material, pointer: Id, builds: bool)
    requires Inv(s) && pointer !in s.built
    ensures var a := AcquireDirection(s, space, m, pointer, builds);
            && Inv(a.state)
            && (a.protector.Some? ==>
                  && a.protector.value !in s.retired && a.protector.value !in s.zeroed
                  && a.state.pins == s.pins + multiset{a.protector.value}
                  && a.protector.value in a.state.built && a.state.built[a.protector.value] == m)
  {
    if !s.destroyed {
      if space in s.table && s.table[space] in s.built && s.built[s.table[space]] == m {
        assert s.table[space] in s.table.Values;
        PinKeepsInv(s, s.table[space]);
      } else {
        DropKeepsInv(s, space);
        var t := Drop(s, space);
        if builds {
          AddKeepsInv(t, space, m, pointer);
          var u := t.(table := t.table[space := pointer], built := t.built[pointer := m]);
          assert u.table[space] == pointer;
          PinKeepsInv(u, pointer);
        }
      }
    }
  }

  lemma AddKeepsInv(t: State, space: Space, m: Material, pointer: Id)
    requires Inv(t) && !t.destroyed && space !in t.table && pointer !in t.built
    ensures Inv(t.(table := t.table[space := pointer], built := t.built[pointer := m]))
  {
    var u := t.(table := t.table[space := pointer], built := t.built[pointer := m]);
    assert CountInv(u) by {
      forall q ensures Uses(u, q) == u.pins[q] {
        assert Uses(t, q) == t.pins[q];
      }
    }
    AddKeepsMaterial(t, space, m, pointer);
  }

  lemma AddKeepsMaterial(t: State, space: Space, m: Material, pointer: Id)
    requires MaterialInv(t) && CountInv(t) && space !in t.table && pointer !in t.built
    ensures MaterialInv(t.(table := t.table[space := pointer], built := t.built[pointer := m]))
  {
    var u := t.(table := t.table[space := pointer], built := t.built[pointer := m]);
    forall q | q in u.built ensures q == MAIN || q in u.table.Values || q in u.retired || q in u.zeroed {
      if q == pointer {
        assert u.table[space] == pointer;
      } else if q in t.table.Values {
        var x :| x in t.table && t.table[x] == q;
        assert x in u.table && u.table[x] == q;
      }
    }
  }

  lemma DestroyKeepsInv(s: State)
    requires Inv(s)
    ensures Inv(Destroy(s))
  {
    var t := Destroy(s);
    forall p ensures Uses(t, p) == t.pins[p] {
      assert Uses(s, p) == s.pins[p];
    }
  }

  // ---------- runs ----------

  datatype Event =
    | OpenMain
    | OpenDirection(space: Space, material: Material, pointer: Id, builds: bool)
    | Finish(protector: Id)
    | Forget(space: Space)
    | DestroyReceiver

  /** Every finished open is one that was begun; every new pointer is new. */
  predicate Enabled(s: State, e: Event) {
    match e
    case Finish(p) => p in s.pins
    case OpenDirection(_, _, pointer, _) => pointer !in s.built
    case _ => true
  }

  function Execute(s: State, e: Event): State {
    match e
    case OpenMain => AcquireMain(s).state
    case OpenDirection(space, m, pointer, builds) => AcquireDirection(s, space, m, pointer, builds).state
    case Finish(p) => Release(s, p)
    case Forget(space) => Drop(s, space)
    case DestroyReceiver => Destroy(s)
  }

  lemma StepKeepsInv(s: State, e: Event)
    requires Inv(s) && Enabled(s, e)
    ensures Inv(Execute(s, e))
  {
    match e
    case OpenMain => if !s.destroyed { PinKeepsInv(s, MAIN); }
    case OpenDirection(space, m, pointer, builds) => AcquireKeepsInv(s, space, m, pointer, builds);
    case Finish(p) => ReleaseKeepsInv(s, p);
    case Forget(space) => DropKeepsInv(s, space);
    case DestroyReceiver => DestroyKeepsInv(s);
  }

  predicate ValidRun(s: State, events: seq<Event>)
    decreases |events|
  {
    events == [] || (Enabled(s, events[0]) && ValidRun(Execute(s, events[0]), events[1..]))
  }

  function StateAfter(s: State, events: seq<Event>): State
    decreases |events|
  {
    if events == [] then s else StateAfter(Execute(s, events[0]), events[1..])
  }

  lemma {:induction false} RunKeepsInv(s: State, events: seq<Event>)
    requires Inv(s) && ValidRun(s, events)
    ensures Inv(StateAfter(s, events))
    decreases |events|
  {
    if events != [] {
      StepKeepsInv(s, events[0]);
      RunKeepsInv(Execute(s, events[0]), events[1..]);
    }
  }

  /**
   * In every interleaving: material pinned by an open is not zeroed; what an open acquires is
   * neither retired nor zeroed; and material that was retired is zeroed exactly when unpinned.
   */
  lemma PinnedMaterialIsSafe(m: Material, events: seq<Event>)
    requires ValidRun(Start(m), events)
    ensures var s := StateAfter(Start(m), events);
            && (forall p :: p in s.pins ==> p !in s.zeroed)
            && (AcquireMain(s).protector.Some? ==> MAIN !in s.retired && MAIN !in s.zeroed)
            && (forall p :: p in s.built && p !in s.table.Values && (p != MAIN || s.destroyed) ==>
                  (p in s.zeroed <==> p !in s.pins))
  {
    assert Inv(Start(m));
    RunKeepsInv(Start(m), events);
  }

  /** Zeroing and retiring are final: nothing that left the cache is ever handed out again. */
  lemma {:induction false} RetiredIsFinal(s: State, events: seq<Event>, p: Id)
    requires Inv(s) && ValidRun(s, events) && (p in s.retired || p in s.zeroed) && p in s.built
    ensures var t := StateAfter(s, events);
            && (p in t.retired || p in t.zeroed)
            && t.pins[p] <= s.pins[p]
    decreases |events|
  {
    if events != [] {
      StepKeepsInv(s, events[0]);
      StaysRetired(s, events[0], p);
      RetiredIsFinal(Execute(s, events[0]), events[1..], p);
    }
  }

  lemma DropKeepsRetired(s: State, space: Space, p: Id)
    requires CacheInv(s) && (p in s.retired || p in s.zeroed)
    ensures var t := Drop(s, space); (p in t.retired || p in t.zeroed) && t.pins == s.pins
  {
  }

  lemma AcquireKeepsRetired(s: State, space: Space, m: Material, pointer: Id, builds: bool, p: Id)
    requires CacheInv(s) && (p in s.retired || p in s.zeroed) && p != pointer
    ensures var t := AcquireDirection(s, space, m, pointer, builds).state;
            (p in t.retired || p in t.zeroed) && t.pins[p] == s.pins[p]
  {
    DropKeepsRetired(s, space, p);
  }

  lemma StaysRetired(s: State, e: Event, p: Id)
    requires Inv(s) && Enabled(s, e) && (p in s.retired || p in s.zeroed) && p in s.built
    ensures var t := Execute(s, e);
            && (p in t.retired || p in t.zeroed) && p in t.built
            && t.pins[p] <= s.pins[p]
  {
    match e
    case OpenMain =>
    case OpenDirection(space, m, pointer, builds) =>
      AcquireKeepsRetired(s, space, m, pointer, builds, p);
      DropKeepsInv(s, space);
    case Finish(q) => ReleaseKeepsRetired(s, q, p);
    case Forget(space) => DropKeepsRetired(s, space, p);
    case DestroyReceiver => DestroyKeepsRetired(s, p);
  }

  lemma ReleaseKeepsRetired(s: State, q: Id, p: Id)
    requires p in s.retired || p in s.zeroed
    ensures var t := Release(s, q);
            (p in t.retired || p in t.zeroed) && t.built == s.built && t.pins[p] <= s.pins[p]
  {
    assert (s.pins - multiset{q})[p] <= s.pins[p];
    assert Release(s, q).pins == s.pins - multiset{q};
  }

  lemma DestroyKeepsRetired(s: State, p: Id)
    requires p in s.retired || p in s.zeroed
    ensures var t := Destroy(s); (p in t.retired || p in t.zeroed) && t.built == s.built && t.pins == s.pins
  {
  }

  // ---------- the object ----------

  class ProtectorCache {
    var uses: map<Id, nat>
    var retired: set<Id>
    var table: map<Space, Id>
    var destroyed: bool
    var built: map<Id, Material>
    var zeroed: set<Id>
    ghost var pins: multiset<Id>

    ghost function View(): State
      reads this
    {
      State(uses, retired, table, destroyed, built, zeroed, pins)
    }

    constructor (m: Material)
      ensures View() == Start(m)
    {
      uses, retired, table, destroyed := map[], {}, map[], false;
      built, zeroed, pins := map[MAIN := m], {}, multiset{};
    }

    method AcquireProtector(p: Id) returns (r: Option<Id>)
      modifies this
      ensures destroyed == old(destroyed) && (destroyed ==> r == None && View() == old(View()))
      ensures !destroyed ==> r == Some(p) && View() == Pin(old(View()), p)
    {
      if destroyed {
        return None;
      }
      uses := uses[p := (if p in uses then uses[p] else 0) + 1];
      pins := pins + multiset{p};
      return Some(p);
    }

    method RetireProtector(p: Id)
      modifies this
      ensures View() == Retire(old(View()), p)
    {
      if p !in uses || uses[p] == 0 {
        zeroed := zeroed + {p};
        return;
      }
      retired := retired + {p};
    }

    method ReleaseProtector(p: Id)
      modifies this
      ensures View() == Release(old(View()), p)
    {
      pins := pins - multiset{p};
      if p in uses && uses[p] > 1 {
        uses := uses[p := uses[p] - 1];
        return;
      }
      uses := uses - {p};
      if p in retired {
        retired := retired - {p};
        zeroed := zeroed + {p};
      }
    }

    method ForgetPacketNumberSpace(space: Space)
      modifies this
      ensures View() == Drop(old(View()), space)
    {
      if space in table {
        var p := table[space];
        table := table - {space};
        RetireProtector(p);
      }
    }

    method DirectionProtector(space: Space, m: Material, pointer: Id, builds: bool) returns (r: Option<Id>)
      modifies this
      ensures var a := AcquireDirection(old(View()), space, m, pointer, builds); View() == a.state && r == a.protector
    {
      if destroyed {
        return None;
      }
      if space in table && table[space] in built && built[table[space]] == m {
        r := AcquireProtector(table[space]);
        return;
      }
      ForgetPacketNumberSpace(space);
      if !builds {
        return None;
      }
      table := table[space := pointer];
      built := built[pointer := m];
      r := AcquireProtector(pointer);
    }

    method DestroyAll()
      modifies this
      ensures View() == Destroy(old(View()))
    {
      destroyed := true;
      var pending := table.Values + {MAIN};
      ghost var before, all := View(), pending;
      assert all - pending == {};
      assert RetireAll(before, {}) == before;
      while pending != {}
        invariant pending <= all
        invariant View() == RetireAll(before, all - pending)
        decreases |pending|
      {
        var p :| p in pending;
        DestroyStep(before, all, pending, p);
        RetireProtector(p);
        pending := pending - {p};
      }
      assert all - pending == all;
      table := map[];
    }
  }
}

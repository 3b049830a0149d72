/** The stream scheduler: strict priority with a bounded number of turns a waiting class is passed over. */
module Scheduler {
  import opened Bytes

  const PRIORITY_INTERACTIVE: byte := 1
  const PRIORITY_BULK: byte := 2
  const PRIORITY_REALTIME: byte := 3
  const MAXIMUM_PRIORITY_BURST: nat := 4

  datatype Chunk = Chunk(flowId: uint64, priority: byte, data: Octets, flags: uint64)

  /** Queue 0 is realtime, 1 interactive, 2 bulk. */
  datatype State = State(limit: int, buffered: int, queues: seq<seq<Chunk>>, passed: seq<nat>)

  predicate Shaped(s: State) {
    |s.queues| == 3 && |s.passed| == 3
  }

  function Fresh(limit: int): State {
    State(limit, 0, [[], [], []], [0, 0, 0])
  }

  function QueueOf(priority: byte): (q: nat)
    ensures q < 3
  {
    if priority == PRIORITY_REALTIME then 0 else if priority == PRIORITY_INTERACTIVE then 1 else 2
  }

  /** What is queued for a chunk: unknown classes become bulk. */
  function Classified(c: Chunk): Chunk {
    if QueueOf(c.priority) == 2 then c.(priority := PRIORITY_BULK) else c
  }

  predicate Accepts(s: State, c: Chunk) {
    && c.data != []
    && (s.limit > 0 ==> 0 <= s.buffered <= s.limit && |c.data| <= s.limit - s.buffered)
  }

  function Enqueued(s: State, c: Chunk): State
    requires Shaped(s)
  {
    if !Accepts(s, c) then s
    else
      var q := QueueOf(c.priority);
      s.(queues := s.queues[q := s.queues[q] + [Classified(c)]], buffered := s.buffered + |c.data|)
  }

  predicate Starved(s: State, q: nat)
    requires Shaped(s) && q < 3
  {
    s.passed[q] >= MAXIMUM_PRIORITY_BURST && s.queues[q] != []
  }

  /** The lowest starved class if there is one, otherwise the highest class that holds data. */
  function Chosen(s: State): (q: Option<nat>)
    requires Shaped(s)
    ensures q.Some? ==> q.value < 3 && s.queues[q.value] != []
    ensures q.None? ==> s.queues[0] == s.queues[1] == s.queues[2] == []
  {
    if Starved(s, 2) then Some(2)
    else if Starved(s, 1) then Some(1)
    else if Starved(s, 0) then Some(0)
    else if s.queues[0] != [] then Some(0)
    else if s.queues[1] != [] then Some(1)
    else if s.queues[2] != [] then Some(2)
    else None
  }

  function PassOver(s: State, q: nat, lower: nat): nat
    requires Shaped(s) && q < 3 && lower < 3
  {
    if lower == q then 0
    else if lower > q && s.queues[lower] != [] then s.passed[lower] + 1
    else s.passed[lower]
  }

  function Serve(s: State, q: nat): State
    requires Shaped(s) && q < 3 && s.queues[q] != []
  {
    var t := s.(queues := s.queues[q := s.queues[q][1..]]);
    State(s.limit, s.buffered - |s.queues[q][0].data|, t.queues,
          [PassOver(t, q, 0), PassOver(t, q, 1), PassOver(t, q, 2)])
  }

  // ---------- invariant ----------

  function QueuedOctets(queue: seq<Chunk>): nat {
    if queue == [] then 0 else |queue[0].data| + QueuedOctets(queue[1..])
  }

  lemma {:induction false} TotalAppend(queue: seq<Chunk>, c: Chunk)
    ensures QueuedOctets(queue + [c]) == QueuedOctets(queue) + |c.data|
  {
    if queue != [] {
      assert (queue + [c])[1..] == queue[1..] + [c];
      TotalAppend(queue[1..], c);
    }
  }

  function Total(s: State): nat
    requires Shaped(s)
  {
    QueuedOctets(s.queues[0]) + QueuedOctets(s.queues[1]) + QueuedOctets(s.queues[2])
  }

  ghost predicate Inv(s: State) {
    && Shaped(s)
    && s.buffered == Total(s)
    && (s.limit > 0 ==> s.buffered <= s.limit)
    && s.passed[0] == 0
    && (forall q :: 0 <= q < 3 ==> s.passed[q] <= MAXIMUM_PRIORITY_BURST && (s.queues[q] == [] ==> s.passed[q] == 0))
    && (forall q, i :: 0 <= q < 3 && 0 <= i < |s.queues[q]| ==>
          s.queues[q][i].data != [] && QueueOf(s.queues[q][i].priority) == q)
  }

  lemma EnqueueKeepsInv(s: State, c: Chunk)
    requires Inv(s)
    ensures Inv(Enqueued(s, c))
  {
    if Accepts(s, c) {
      var q := QueueOf(c.priority);
      TotalAppend(s.queues[q], Classified(c));
    }
  }

  lemma ServeKeepsInv(s: State)
    requires Inv(s) && Chosen(s).Some?
    ensures Inv(Serve(s, Chosen(s).value))
  {
  }

  // ---------- waiting ----------

  /** How many more turns class `q` can be passed over while it holds data. */
  function Patience(s: State, q: nat): nat
    requires Inv(s) && q < 3
  {
    var p1, p2 := s.passed[1], s.passed[2];
    if q == 2 then 4 - p2
    else if q == 1 then 4 - p1 + (if p2 >= p1 then 1 else 0) + (if p2 >= p1 + 4 then 1 else 0)
    else (if p1 >= 4 then 1 else 0) + (if p2 >= 4 || (p1 >= 4 && p2 >= 3) then 1 else 0)
  }

  function Bound(q: nat): nat {
    if q == 2 then 4 else if q == 1 then 6 else 2
  }

  lemma PatienceBounded(s: State, q: nat)
    requires Inv(s) && q < 3
    ensures Patience(s, q) <= Bound(q)
  {
  }

  /** Serving another class while `q` holds data uses up patience. */
  lemma ServeUsesPatience(s: State, q: nat)
    requires Inv(s) && q < 3 && s.queues[q] != [] && Chosen(s).Some? && Chosen(s).value != q
    ensures Inv(Serve(s, Chosen(s).value))
    ensures Patience(Serve(s, Chosen(s).value), q) < Patience(s, q)
  {
    ServeKeepsInv(s);
  }

  // ---------- runs ----------

  datatype Event = Put(chunk: Chunk) | Take

  /** `wait` counts the consecutive turns each class was passed over while holding data. */
  datatype Run = Run(state: State, wait: seq<nat>, accepted: seq<seq<Chunk>>, served: seq<seq<Chunk>>)

  function Start(limit: int): Run {
    Run(Fresh(limit), [0, 0, 0], [[], [], []], [[], [], []])
  }

  function Waited(s: State, wait: nat, q: nat, chosen: nat): nat
    requires Shaped(s) && q < 3
  {
    if q == chosen || s.queues[q] == [] then 0 else wait + 1
  }

  predicate RunShaped(r: Run) {
    Shaped(r.state) && |r.wait| == 3 && |r.accepted| == 3 && |r.served| == 3
  }

  function Step(r: Run, e: Event): Run
    requires RunShaped(r)
  {
    match e
    case Put(c) =>
      if !Accepts(r.state, c) then r
      else
        var q := QueueOf(c.priority);
        r.(state := Enqueued(r.state, c), accepted := r.accepted[q := r.accepted[q] + [Classified(c)]])
    case Take =>
      match Chosen(r.state)
      case None => r
      case Some(q) =>
        var s := r.state;
        r.(state := Serve(s, q),
           wait := [Waited(s, r.wait[0], 0, q), Waited(s, r.wait[1], 1, q), Waited(s, r.wait[2], 2, q)],
           served := r.served[q := r.served[q] + [s.queues[q][0]]])
  }

  ghost predicate RunInv(r: Run) {
    && RunShaped(r) && Inv(r.state)
    && (forall q :: 0 <= q < 3 ==> r.served[q] + r.state.queues[q] == r.accepted[q])
    && (forall q :: 0 <= q < 3 ==> if r.state.queues[q] == [] then r.wait[q] == 0
                                   else r.wait[q] + Patience(r.state, q) <= Bound(q))
  }

  lemma PutKeeps(r: Run, e: Event)
    requires RunInv(r) && e.Put?
    ensures RunInv(Step(r, e))
  {
    if Accepts(r.state, e.chunk) {
      EnqueueKeepsInv(r.state, e.chunk);
      var t := Step(r, e);
      var q := QueueOf(e.chunk.priority);
      assert r.served[q] + (r.state.queues[q] + [Classified(e.chunk)]) == (r.served[q] + r.state.queues[q])
             + [Classified(e.chunk)];
      forall i | 0 <= i < 3 ensures Patience(t.state, i) == Patience(r.state, i) {
      }
      PatienceBounded(r.state, q);
    }
  }

  lemma TakeKeeps(r: Run)
    requires RunInv(r)
    ensures RunInv(Step(r, Take))
  {
    if Chosen(r.state).Some? {
      var s, q := r.state, Chosen(r.state).value;
      var t := Step(r, Take);
      ServeKeepsInv(s);
      assert r.served[q] + s.queues[q] == (r.served[q] + [s.queues[q][0]]) + s.queues[q][1..];
      forall i | 0 <= i < 3
        ensures if t.state.queues[i] == [] then t.wait[i] == 0 else t.wait[i] + Patience(t.state, i) <= Bound(i)
      {
        PatienceBounded(t.state, i);
        if i != q && s.queues[i] != [] {
          ServeUsesPatience(s, i);
        }
      }
    }
  }

  function RunAll(r: Run, events: seq<Event>): (t: Run)
    requires RunShaped(r)
    ensures RunShaped(t)
    decreases |events|
  {
    if events == [] then r else RunAll(Step(r, events[0]), events[1..])
  }

  lemma {:induction false} RunKeepsInv(r: Run, events: seq<Event>)
    requires RunInv(r)
    ensures RunInv(RunAll(r, events))
    decreases |events|
  {
    if events != [] {
      match events[0]
      case Put(_) => PutKeeps(r, events[0]);
      case Take => TakeKeeps(r);
    }
    if events != [] {
      RunKeepsInv(Step(r, events[0]), events[1..]);
    }
  }

  /**
   * Under any mix of enqueues and takes a class that holds data is passed over at most 4 (bulk),
   * 6 (interactive) or 2 (realtime) consecutive times; the byte count is exact and within the
   * limit; each class is first in, first out, with nothing lost or duplicated.
   */
  lemma BoundedWaiting(limit: int, events: seq<Event>)
    ensures var r := RunAll(Start(limit), events);
            && r.wait[0] <= 2 && r.wait[1] <= 6 && r.wait[2] <= 4
            && r.state.buffered == Total(r.state) && (r.state.limit > 0 ==> r.state.buffered <= r.state.limit)
            && forall q :: 0 <= q < 3 ==> r.served[q] + r.state.queues[q] == r.accepted[q]
  {
    assert RunInv(Start(limit));
    RunKeepsInv(Start(limit), events);
    var r := RunAll(Start(limit), events);
    assert forall q :: 0 <= q < 3 ==> r.wait[q] <= Bound(q);
  }

  // ---------- the bounds are attained ----------

  lemma {:induction false} RunExtends(r: Run, events: seq<Event>, e: Event)
    requires RunShaped(r)
    ensures RunAll(r, events + [e]) == Step(RunAll(r, events), e)
    decreases |events|
  {
    if events == [] {
      assert [e][1..] == [];
    } else {
      assert (events + [e])[1..] == events[1..] + [e];
      RunExtends(Step(r, events[0]), events[1..], e);
    }
  }

  ghost predicate Reachable(r: Run) {
    exists events :: RunAll(Start(0), events) == r
  }

  lemma Play(r: Run, e: Event) returns (t: Run)
    requires Reachable(r) && RunShaped(r)
    ensures t == Step(r, e) && Reachable(t)
  {
    var events :| RunAll(Start(0), events) == r;
    RunExtends(Start(0), events, e);
    t := Step(r, e);
  }

  function Sample(priority: byte): Chunk {
    Chunk(1, priority, [0], 0)
  }

  /** Four realtime chunks served while bulk and interactive hold what they hold. */
  lemma PutFour(r: Run) returns (t: Run)
    requires Reachable(r) && RunShaped(r) && r.state.limit == 0
    ensures Reachable(t) && RunShaped(t) && t.wait == r.wait && t.state.passed == r.state.passed && t.state.limit == 0
    ensures |t.state.queues[0]| == |r.state.queues[0]| + 4
    ensures t.state.queues[1] == r.state.queues[1] && t.state.queues[2] == r.state.queues[2]
  {
    t := Play(r, Put(Sample(PRIORITY_REALTIME)));
    t := Play(t, Put(Sample(PRIORITY_REALTIME)));
    t := Play(t, Put(Sample(PRIORITY_REALTIME)));
    t := Play(t, Put(Sample(PRIORITY_REALTIME)));
  }

  lemma TakeRealtime(r: Run) returns (t: Run)
    requires Reachable(r) && RunShaped(r) && r.state.queues[0] != [] && r.state.queues[2] != []
    requires r.state.passed[0] == 0 && r.state.passed[1] < 4 && r.state.passed[2] < 4
    ensures Reachable(t) && RunShaped(t) && t.state.limit == r.state.limit
    ensures t.state.queues == r.state.queues[0 := r.state.queues[0][1..]]
    ensures t.state.passed == [0, r.state.passed[1] + (if r.state.queues[1] == [] then 0 else 1), r.state.passed[2] + 1]
    ensures t.wait == [0, if r.state.queues[1] == [] then 0 else r.wait[1] + 1, r.wait[2] + 1]
  {
    t := Play(r, Take);
  }

  lemma TakeFour(r: Run) returns (t: Run)
    requires Reachable(r) && RunShaped(r) && r.state.limit == 0
    requires |r.state.queues[0]| >= 4 && r.state.passed[0] == 0 && r.state.queues[2] != []
    requires r.state.passed[1] == 0 && r.state.passed[2] == 0
    ensures Reachable(t) && RunShaped(t) && t.state.limit == 0
    ensures |t.state.queues[0]| == |r.state.queues[0]| - 4
    ensures t.state.queues[1] == r.state.queues[1] && t.state.queues[2] == r.state.queues[2]
    ensures t.state.passed == [0, if r.state.queues[1] == [] then 0 else 4, 4]
    ensures t.wait == [0, if r.state.queues[1] == [] then 0 else r.wait[1] + 4, r.wait[2] + 4]
  {
    t := TakeRealtime(r);
    t := TakeRealtime(t);
    t := TakeRealtime(t);
    t := TakeRealtime(t);
  }

  /** No smaller bounds hold: runs exist in which each class waits as long as its bound allows. */
  lemma BoundsAttained()
    ensures exists r :: Reachable(r) && RunShaped(r) && r.wait[2] == 4
    ensures exists r :: Reachable(r) && RunShaped(r) && r.wait[1] == 6
    ensures exists r :: Reachable(r) && RunShaped(r) && r.wait[0] == 2
  {
    assert RunAll(Start(0), []) == Start(0);
    var r := Play(Start(0), Put(Sample(PRIORITY_BULK)));
    r := Play(r, Put(Sample(PRIORITY_BULK)));
    r := Play(r, Put(Sample(PRIORITY_BULK)));
    r := PutFour(r);
    r := TakeFour(r);
    assert r.wait[2] == 4;
    r := Play(r, Put(Sample(PRIORITY_INTERACTIVE)));
    r := PutFour(r);
    r := PutFour(r);
    r := Play(r, Take);
    r := TakeFour(r);
    var v := Play(r, Take);
    assert v.wait[1] == 6 && v.wait[0] == 1;
    var w := Play(v, Take);
    assert w.wait[0] == 2;
  }

  // ---------- the object ----------

  class StreamScheduler {
    const limit: int
    var buffered: int
    var realtime: seq<Chunk>
    var interactive: seq<Chunk>
    var bulk: seq<Chunk>
    const passedOver: array<nat>

    ghost predicate Valid()
      reads this, passedOver
    {
      passedOver.Length == 3
    }

    ghost function View(): (s: State)
      requires Valid()
      reads this, passedOver
      ensures Shaped(s)
    {
      State(limit, buffered, [realtime, interactive, bulk], passedOver[..])
    }

    constructor (limit: int)
      ensures Valid() && View() == Fresh(limit) && fresh(passedOver)
    {
      this.limit, buffered := limit, 0;
      realtime, interactive, bulk := [], [], [];
      passedOver := new nat[3][0, 0, 0];
      new;
      assert passedOver[..] == [0, 0, 0];
    }

    method Enqueue(c: Chunk) returns (ok: bool)
      requires Valid()
      modifies this
      ensures Valid() && ok == Accepts(old(View()), c) && View() == Enqueued(old(View()), c)
    {
      if c.data == [] {
        return false;
      }
      if limit > 0 && (buffered < 0 || buffered > limit || |c.data| > limit - buffered) {
        return false;
      }
      if c.priority == PRIORITY_REALTIME {
        realtime := realtime + [c];
      } else if c.priority == PRIORITY_INTERACTIVE {
        interactive := interactive + [c];
      } else {
        bulk := bulk + [c.(priority := PRIORITY_BULK)];
      }
      buffered := buffered + |c.data|;
      return true;
    }

    function QueueAt(index: nat): (q: seq<Chunk>)
      reads this
    {
      if index == 0 then realtime else if index == 1 then interactive else bulk
    }

    method NextQueueIndex() returns (index: nat, ok: bool)
      requires Valid()
      ensures ok == Chosen(View()).Some? && (ok ==> index == Chosen(View()).value)
    {
      ghost var s := View();
      index := 3;
      while index > 0
        invariant 0 <= index <= 3
        invariant forall q :: index <= q < 3 ==> !Starved(s, q)
      {
        index := index - 1;
        if passedOver[index] >= MAXIMUM_PRIORITY_BURST && QueueAt(index) != [] {
          return index, true;
        }
      }
      while index < 3
        invariant 0 <= index <= 3
        invariant forall q :: 0 <= q < index ==> s.queues[q] == []
      {
        if QueueAt(index) != [] {
          return index, true;
        }
        index := index + 1;
      }
      return 0, false;
    }

    method Next() returns (chunk: Option<Chunk>)
      requires Valid()
      modifies this, passedOver
      ensures Valid()
      ensures var s := old(View());
              match Chosen(s)
              case None => chunk == None && View() == s
              case Some(q) => chunk == Some(s.queues[q][0]) && View() == Serve(s, q)
    {
      var index, ok := NextQueueIndex();
      if !ok {
        return None;
      }
      var head := PopChunk(index);
      buffered := buffered - |head.data|;
      passedOver[index] := 0;
      var lower := index + 1;
      while lower < 3
        invariant index < lower <= 3
        invariant realtime == old(if index == 0 then realtime[1..] else realtime)
        invariant interactive == old(if index == 1 then interactive[1..] else interactive)
        invariant bulk == old(if index == 2 then bulk[1..] else bulk)
        invariant buffered == old(buffered) - |head.data|
        invariant passedOver[index] == 0
        invariant forall q :: 0 <= q < 3 && q != index ==>
                    passedOver[q] == old(passedOver[q]) + (if index < q < lower && QueueAt(q) != [] then 1 else 0)
      {
        if QueueAt(lower) != [] {
          passedOver[lower] := passedOver[lower] + 1;
        }
        lower := lower + 1;
      }
      return Some(head);
    }

    method PopChunk(index: nat) returns (head: Chunk)
      requires index < 3 && QueueAt(index) != []
      modifies this`realtime, this`interactive, this`bulk
      ensures head == old(QueueAt(index)[0])
      ensures realtime == old(if index == 0 then realtime[1..] else realtime)
      ensures interactive == old(if index == 1 then interactive[1..] else interactive)
      ensures bulk == old(if index == 2 then bulk[1..] else bulk)
    {
      head := QueueAt(index)[0];
      if index == 0 {
        realtime := realtime[1..];
      } else if index == 1 {
        interactive := interactive[1..];
      } else {
        bulk := bulk[1..];
      }
    }
  }
}

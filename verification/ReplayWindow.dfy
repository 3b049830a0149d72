/** The replay window: a ring bitmap that remembers the accepted packet numbers of one number space. */
module ReplayWindow {
  import opened Arith

  // ---------- words ----------

  /** Bit `i` of a word. */
  function Bit(w: nat, i: nat): bool {
    if i == 0 then w % 2 == 1 else Bit(w / 2, i - 1)
  }

  /** `w | 1 << i` when `on`, otherwise `w &^ 1 << i`. */
  function WithBit(w: nat, i: nat, on: bool): nat {
    if i == 0 then w - w % 2 + (if on then 1 else 0) else w % 2 + 2 * WithBit(w / 2, i - 1, on)
  }

  lemma {:induction false} BitOfWithBit(w: nat, i: nat, on: bool, j: nat)
    ensures Bit(WithBit(w, i, on), j) == if i == j then on else Bit(w, j)
  {
    if i > 0 && j > 0 {
      var v := w % 2 + 2 * WithBit(w / 2, i - 1, on);
      assert v / 2 == WithBit(w / 2, i - 1, on);
      BitOfWithBit(w / 2, i - 1, on, j - 1);
    } else if i > 0 {
      assert (w % 2 + 2 * WithBit(w / 2, i - 1, on)) % 2 == w % 2;
    } else if j > 0 {
      assert (w - w % 2 + (if on then 1 else 0)) / 2 == w / 2;
    }
  }

  lemma {:induction false} NoBits(i: nat)
    ensures !Bit(0, i)
  {
    if i > 0 {
      NoBits(i - 1);
    }
  }

  /** The number of set bits among the lowest `n`. */
  function OnesCount(w: nat, n: nat): nat {
    if n == 0 then 0 else (if w % 2 == 1 then 1 else 0) + OnesCount(w / 2, n - 1)
  }

  lemma {:induction false} OnesCountTop(w: nat, n: nat)
    ensures OnesCount(w, n + 1) == OnesCount(w, n) + (if Bit(w, n) then 1 else 0)
  {
    if n > 0 {
      OnesCountTop(w / 2, n - 1);
    }
  }

  // ---------- the ring ----------

  /** Bit `i` of a bitmap stored in 64-bit words. */
  function Slot(words: seq<nat>, i: nat): bool
    requires i < 64 * |words|
  {
    Bit(words[i / 64], i % 64)
  }

  function WithSlot(words: seq<nat>, i: nat, on: bool): seq<nat>
    requires i < 64 * |words|
  {
    words[i / 64 := WithBit(words[i / 64], i % 64, on)]
  }

  lemma SlotOfWithSlot(words: seq<nat>, i: nat, on: bool, j: nat)
    requires i < 64 * |words| && j < 64 * |words|
    ensures Slot(WithSlot(words, i, on), j) == if i == j then on else Slot(words, j)
  {
    if i / 64 == j / 64 {
      BitOfWithBit(words[i / 64], i % 64, on, j % 64);
    }
  }

  /** The number that slot `i` stands for: the one in (highest - ring, highest] that is congruent to it. */
  function NumberAt(highest: nat, ring: nat, i: nat): int
    requires ring > 0
  {
    highest - (highest - i) % ring
  }

  lemma NumberAtFits(highest: nat, ring: nat, i: nat)
    requires i < ring
    ensures highest - ring < NumberAt(highest, ring, i) <= highest
    ensures NumberAt(highest, ring, i) % ring == i
  {
    var q := (highest - i) / ring;
    assert highest - i == ring * q + (highest - i) % ring;
    ModAddMultiple(i, ring, q);
    DivModUnique(i, ring, 0, i);
  }

  lemma NumberAtUnique(highest: nat, ring: nat, i: nat, n: int)
    requires i < ring && n % ring == i && highest - ring < n <= highest
    ensures NumberAt(highest, ring, i) == n
  {
    NumberAtFits(highest, ring, i);
    SameRemainder(NumberAt(highest, ring, i), n, ring);
  }

  /** The bitmap holds exactly the accepted numbers of the window; slots past the ring are clear. */
  ghost predicate Holds(words: seq<nat>, highest: nat, ring: nat, accepted: set<nat>) {
    && 0 < ring <= 64 * |words|
    && (forall i: nat :: i < ring ==> (Slot(words, i) <==> NumberAt(highest, ring, i) in accepted))
    && (forall i: nat :: ring <= i < 64 * |words| ==> !Slot(words, i))
  }

  lemma ContainsIff(words: seq<nat>, highest: nat, ring: nat, accepted: set<nat>, n: nat)
    requires Holds(words, highest, ring, accepted) && highest - ring < n <= highest
    ensures Slot(words, n % ring) <==> n in accepted
  {
    NumberAtUnique(highest, ring, n % ring, n);
  }

  lemma SetHolds(words: seq<nat>, highest: nat, ring: nat, accepted: set<nat>, n: nat)
    requires Holds(words, highest, ring, accepted) && highest - ring < n <= highest
    ensures Holds(WithSlot(words, n % ring, true), highest, ring, accepted + {n})
  {
    var next := WithSlot(words, n % ring, true);
    forall i: nat | i < 64 * |words| ensures Slot(next, i) == (i == n % ring || Slot(words, i)) {
      SlotOfWithSlot(words, n % ring, true, i);
    }
    forall i: nat | i < ring ensures Slot(next, i) <==> NumberAt(highest, ring, i) in accepted + {n} {
      NumberAtFits(highest, ring, i);
      NumberAtUnique(highest, ring, n % ring, n);
    }
  }

  /** Moving the window up by one changes the meaning of one slot. */
  lemma NextSlot(highest: nat, ring: nat, i: nat)
    requires i < ring
    ensures NumberAt(highest + 1, ring, i) == if i == (highest + 1) % ring then highest + 1
            else NumberAt(highest, ring, i)
  {
    NumberAtFits(highest, ring, i);
    NumberAtFits(highest + 1, ring, i);
    if i == (highest + 1) % ring {
      NumberAtUnique(highest + 1, ring, i, highest + 1);
    } else {
      NumberAtUnique(highest, ring, i, NumberAt(highest + 1, ring, i));
    }
  }

  /** Slot `i` stands for a number that entered the window while it moved from `highest` to `next`. */
  ghost predicate Entered(highest: nat, next: nat, ring: nat, i: nat)
    requires ring > 0
  {
    i < ring && NumberAt(next, ring, i) > highest
  }

  lemma EnteredStep(highest: nat, reached: nat, ring: nat, i: nat)
    requires ring > 0 && highest <= reached
    ensures Entered(highest, reached + 1, ring, i) <==> i == (reached + 1) % ring || Entered(highest, reached, ring, i)
  {
    if i < ring {
      NextSlot(reached, ring, i);
    }
  }

  /** A slot that no entering number takes keeps its meaning. */
  lemma KeptSlot(highest: nat, next: nat, ring: nat, i: nat)
    requires i < ring && highest <= next && !Entered(highest, next, ring, i)
    ensures next < highest + ring ==> NumberAt(next, ring, i) == NumberAt(highest, ring, i)
  {
    NumberAtFits(next, ring, i);
    if next < highest + ring {
      NumberAtUnique(highest, ring, i, NumberAt(next, ring, i));
    }
  }

  lemma AdvanceHolds(words: seq<nat>, moved: seq<nat>, highest: nat, next: nat, ring: nat, accepted: set<nat>)
    requires Holds(words, highest, ring, accepted) && |moved| == |words| && highest <= next < highest + ring
    requires forall n :: n in accepted ==> n <= highest
    requires forall i: nat :: i < 64 * |words| ==>
               (Slot(moved, i) <==> Slot(words, i) && !Entered(highest, next, ring, i))
    ensures Holds(moved, next, ring, accepted)
  {
    forall i: nat | i < ring ensures Slot(moved, i) <==> NumberAt(next, ring, i) in accepted {
      if !Entered(highest, next, ring, i) {
        KeptSlot(highest, next, ring, i);
      }
    }
  }

  lemma ClearedHolds(words: seq<nat>, highest: nat, next: nat, ring: nat, accepted: set<nat>)
    requires 0 < ring <= 64 * |words| && next >= highest + ring
    requires forall i :: 0 <= i < |words| ==> words[i] == 0
    requires forall n :: n in accepted ==> n <= highest
    ensures Holds(words, next, ring, accepted)
  {
    forall i: nat | i < 64 * |words| ensures !Slot(words, i) {
      NoBits(i % 64);
    }
    forall i: nat | i < ring ensures NumberAt(next, ring, i) !in accepted {
      NumberAtFits(next, ring, i);
    }
  }

  // ---------- counting ----------

  /** The slots below `n` that are set. */
  ghost function SetSlots(words: seq<nat>, n: nat): set<nat>
    requires n <= 64 * |words|
  {
    set i: nat | i < n && Slot(words, i)
  }

  function Total(words: seq<nat>): nat {
    if words == [] then 0 else Total(words[..|words| - 1]) + OnesCount(words[|words| - 1], 64)
  }

  lemma {:induction false} WordSlots(words: seq<nat>, k: nat, n: nat)
    requires k < |words| && n <= 64
    ensures |SetSlots(words, 64 * k + n)| == |SetSlots(words, 64 * k)| + OnesCount(words[k], n)
    decreases n
  {
    if n > 0 {
      WordSlots(words, k, n - 1);
      OnesCountTop(words[k], n - 1);
      OneMoreSlot(words, 64 * k + n - 1, k, n - 1);
    }
  }

  lemma OneMoreSlot(words: seq<nat>, i: nat, k: nat, n: nat)
    requires k < |words| && n < 64 && i == 64 * k + n
    ensures Slot(words, i) == Bit(words[k], n)
    ensures |SetSlots(words, i + 1)| == |SetSlots(words, i)| + if Slot(words, i) then 1 else 0
  {
    assert i / 64 == k && i % 64 == n;
    var before := SetSlots(words, i);
    assert SetSlots(words, i + 1) == if Slot(words, i) then before + {i} else before;
  }

  lemma {:induction false} TotalCountsSlots(words: seq<nat>)
    ensures Total(words) == |SetSlots(words, 64 * |words|)|
  {
    if words != [] {
      var m := |words| - 1;
      TotalCountsSlots(words[..m]);
      assert SetSlots(words[..m], 64 * m) == SetSlots(words, 64 * m);
      WordSlots(words, m, 64);
    }
  }

  lemma {:induction false} InjectiveImage(s: set<nat>, t: set<nat>, highest: nat, ring: nat)
    requires ring > 0
    requires forall i :: i in s ==> i < ring && NumberAt(highest, ring, i) in t
    requires forall n :: n in t ==> n % ring in s && highest - ring < n <= highest
    ensures |s| == |t|
    decreases |s|
  {
    if s == {} {
      assert t == {};
    } else {
      var i :| i in s;
      var n := NumberAt(highest, ring, i);
      forall j | j in s - {i} ensures NumberAt(highest, ring, j) in t - {n} {
        NumberAtFits(highest, ring, i);
        NumberAtFits(highest, ring, j);
      }
      forall m | m in t - {n} ensures m % ring in s - {i} {
        NumberAtUnique(highest, ring, m % ring, m);
      }
      InjectiveImage(s - {i}, t - {n}, highest, ring);
    }
  }

  /** The bit count is the number of accepted packets still inside the window. */
  lemma CountIsExact(words: seq<nat>, highest: nat, ring: nat, accepted: set<nat>)
    requires Holds(words, highest, ring, accepted)
    ensures Total(words) == |set n | n in accepted && highest - ring < n <= highest|
  {
    var t := set n | n in accepted && highest - ring < n <= highest;
    TotalCountsSlots(words);
    var s := SetSlots(words, 64 * |words|);
    forall i | i in s ensures i < ring && NumberAt(highest, ring, i) in t {
      NumberAtFits(highest, ring, i);
    }
    forall n | n in t ensures n % ring in s {
      ContainsIff(words, highest, ring, accepted, n);
    }
    InjectiveImage(s, t, highest, ring);
  }

  // ---------- the object ----------

  /** A number is fresh when it lies above every accepted one, or inside the window and unseen. */
  predicate Fresh(accepted: set<nat>, highest: nat, size: nat, n: nat) {
    n > highest || (highest - n <= size && n !in accepted)
  }

  datatype Verdict = Ok | Outside | Duplicate

  class Window {
    const size: nat
    var highest: nat
    const bits: array<nat>
    ghost var accepted: set<nat>

    ghost predicate Valid()
      reads this, bits
    {
      && Holds(bits[..], highest, size + 1, accepted)
      && highest in accepted
      && forall n :: n in accepted ==> n <= highest
    }

    /** The window of a space is made when its first packet is accepted. */
    constructor (size: nat, first: nat)
      ensures Valid() && this.size == size && accepted == {first} && highest == first && fresh(bits)
    {
      this.size, highest := size, first;
      bits := new nat[(size + 64) / 64](i => 0);
      accepted := {first};
      new;
      forall i: nat | i < 64 * bits.Length ensures !Slot(bits[..], i) {
        NoBits(i % 64);
      }
      ghost var ring := size + 1;
      forall i: nat | i < ring ensures NumberAt(first, ring, i) == first <==> i == first % ring {
        NumberAtFits(first, ring, i);
        NumberAtUnique(first, ring, first % ring, first);
      }
      ghost var before := bits[..];
      var index := first % (size + 1);
      Put(index, true);
      forall i: nat | i < 64 * bits.Length ensures Slot(bits[..], i) == (i == index) {
        SlotOfWithSlot(before, index, true, i);
      }
    }

    method Put(index: nat, on: bool)
      requires index < 64 * bits.Length
      modifies bits
      ensures bits[..] == WithSlot(old(bits[..]), index, on)
    {
      bits[index / 64] := WithBit(bits[index / 64], index % 64, on);
    }

    method Contains(n: nat) returns (seen: bool)
      requires Valid() && highest - size <= n <= highest
      ensures seen <==> n in accepted
    {
      ContainsIff(bits[..], highest, size + 1, accepted, n);
      var index := n % (size + 1);
      seen := Bit(bits[index / 64], index % 64);
    }

    /** Accepts exactly the fresh numbers. */
    method Check(n: nat) returns (v: Verdict)
      requires Valid()
      ensures v == Ok <==> Fresh(accepted, highest, size, n)
      ensures v == Outside <==> n + size < highest
    {
      if n > highest {
        return Ok;
      }
      if highest - n > size {
        return Outside;
      }
      var seen := Contains(n);
      return if seen then Duplicate else Ok;
    }

    method ClearAll()
      modifies bits
      ensures forall j :: 0 <= j < bits.Length ==> bits[j] == 0
    {
      for i := 0 to bits.Length
        invariant forall j :: 0 <= j < i ==> bits[j] == 0
      {
        bits[i] := 0;
      }
    }

    /** Clears the slots of the numbers that enter when the window moves up to `next`. */
    method ClearEntered(next: nat)
      requires size + 1 <= 64 * bits.Length && next >= highest
      modifies bits
      ensures forall i: nat :: i < 64 * bits.Length ==>
                (Slot(bits[..], i) <==> Slot(old(bits[..]), i) && !Entered(highest, next, size + 1, i))
    {
      var ring := size + 1;
      ghost var before := bits[..];
      forall i: nat | i < ring ensures !Entered(highest, highest, ring, i) {
        NumberAtFits(highest, ring, i);
      }
      var offset := 1;
      while offset <= next - highest
        invariant 1 <= offset <= next - highest + 1
        invariant forall i: nat :: i < 64 * |before| ==>
                    (Slot(bits[..], i) <==> Slot(before, i) && !Entered(highest, highest + offset - 1, ring, i))
      {
        var index := (highest + offset) % ring;
        ghost var now := bits[..];
        Put(index, false);
        forall i: nat | i < 64 * |before|
          ensures Slot(bits[..], i) <==> Slot(before, i) && !Entered(highest, highest + offset, ring, i)
        {
          SlotOfWithSlot(now, index, false, i);
          EnteredStep(highest, highest + offset - 1, ring, i);
        }
        offset := offset + 1;
      }
    }

    method Advance(next: nat)
      requires Valid() && next > highest
      modifies this`highest, bits
      ensures highest == next && Holds(bits[..], highest, size + 1, accepted)
    {
      ghost var before := bits[..];
      if next - highest >= size + 1 {
        ClearAll();
        ClearedHolds(bits[..], highest, next, size + 1, accepted);
      } else {
        ClearEntered(next);
        AdvanceHolds(before, bits[..], highest, next, size + 1, accepted);
      }
      highest := next;
    }

    /** Records a number; one that has left the window is ignored. */
    method Mark(n: nat)
      requires Valid()
      modifies this, bits
      ensures Valid()
      ensures accepted == if n + size < old(highest) then old(accepted) else old(accepted) + {n}
      ensures highest == if n > old(highest) then n else old(highest)
    {
      if n > highest {
        Advance(n);
      } else if highest - n > size {
        return;
      }
      SetHolds(bits[..], highest, size + 1, accepted, n);
      var index := n % (size + 1);
      Put(index, true);
      accepted := accepted + {n};
    }

    method Count() returns (total: nat)
      requires Valid()
      ensures total == |set n | n in accepted && highest - size <= n <= highest|
    {
      total := 0;
      for i := 0 to bits.Length
        invariant total == Total(bits[..i])
      {
        assert bits[..i + 1][..i] == bits[..i];
        total := total + OnesCount(bits[i], 64);
      }
      assert bits[..bits.Length] == bits[..];
      CountIsExact(bits[..], highest, size + 1, accepted);
      assert (set n | n in accepted && highest - (size + 1) < n <= highest) ==
             (set n | n in accepted && highest - size <= n <= highest);
    }
  }
}

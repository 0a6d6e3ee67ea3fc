/**
 The free-list pools behind the paged KV cache.  Both pools, VRAM and pinned host memory,
 use the same code: pop the last free slot, push a freed slot.
 */
module Pools {
  import opened Options

  datatype Pool = Pool(capacity: nat, free: seq<nat>)

  /** All slots free, in descending order, so that slot 0 is handed out first. */
  function NewPool(capacity: nat): Pool {
    Pool(capacity, seq(capacity, i requires 0 <= i < capacity => capacity - 1 - i))
  }

  /** Pop a slot, or nothing when the pool is exhausted. */
  function Alloc(p: Pool): (Pool, Option<nat>) {
    if p.free == [] then (p, None)
    else (p.(free := p.free[..|p.free| - 1]), Some(p.free[|p.free| - 1]))
  }

  /** Whether `Free` would be accepted: in range and not a double free. */
  predicate CanFree(p: Pool, slot: nat) {
    slot < p.capacity && slot !in p.free
  }

  function Free(p: Pool, slot: nat): Pool
    requires CanFree(p, slot)
  {
    p.(free := p.free + [slot])
  }

  /** The slot freed last is handed out first. */
  lemma FreeThenAlloc(p: Pool, slot: nat)
    requires CanFree(p, slot)
    ensures Alloc(Free(p, slot)) == (p, Some(slot))
  {
    assert (p.free + [slot])[..|p.free|] == p.free;
  }

  /** The pool after n slots have been handed out. */
  function Drawn(p: Pool, n: nat): Pool {
    if n == 0 then p else Alloc(Drawn(p, n - 1)).0
  }

  /** A new pool hands out slots 0, 1, 2, ... until its capacity is used up. */
  lemma {:induction false} NewPoolCountsUp(capacity: nat, n: nat)
    ensures Alloc(Drawn(NewPool(capacity), n)).1 == if n < capacity then Some(n) else None
    ensures Drawn(NewPool(capacity), n) == Pool(capacity, seq(if n < capacity then capacity - n else 0, i => capacity - 1 - i))
  {
    var p := Drawn(NewPool(capacity), n);
    if n > 0 {
      NewPoolCountsUp(capacity, n - 1);
    }
    assert p.free == seq(if n < capacity then capacity - n else 0, i => capacity - 1 - i);
  }

  predicate NoDuplicates(s: seq<nat>) {
    forall i, j :: 0 <= i < j < |s| ==> s[i] != s[j]
  }

  /**
   Slot conservation.  `held` says which record holds which slot: every slot is in the free
   list exactly once or held by exactly one record.
   */
  ghost predicate Conserved(p: Pool, held: map<nat, nat>) {
    && NoDuplicates(p.free)
    && (forall i :: 0 <= i < |p.free| ==> p.free[i] < p.capacity)
    && (forall id :: id in held ==> held[id] < p.capacity && held[id] !in p.free)
    && (forall a, b :: a in held && b in held && a != b ==> held[a] != held[b])
    && (forall slot: nat {:trigger slot in held.Values} :: slot < p.capacity && slot !in p.free ==> slot in held.Values)
  }

  lemma NewPoolConserved(capacity: nat)
    ensures Conserved(NewPool(capacity), map[])
  {
    var p := NewPool(capacity);
    forall slot: nat | slot < capacity ensures slot in p.free {
      assert p.free[capacity - 1 - slot] == slot;
    }
  }

  /** Handing the popped slot to a new record conserves the slots. */
  lemma AllocConserves(p: Pool, held: map<nat, nat>, id: nat)
    requires Conserved(p, held) && p.free != [] && id !in held
    ensures Alloc(p).1.Some? && Conserved(Alloc(p).0, held[id := Alloc(p).1.value])
    ensures Alloc(p).1.value in p.free && Alloc(p).1.value < p.capacity
    ensures forall a :: a in held ==> held[a] != Alloc(p).1.value
  {
    var (p', slot) := Alloc(p);
    var held' := held[id := slot.value];
    assert held'[id] == slot.value;
    forall s: nat | s < p.capacity && s !in p'.free ensures s in held'.Values {
      if s in p.free {
        assert s == slot.value;
      } else {
        assert s in held.Values;
        var a :| a in held && held[a] == s;
        assert held'[a] == s;
      }
    }
  }

  /** A slot given back by its only holder is free exactly once. */
  lemma FreeConserves(p: Pool, held: map<nat, nat>, id: nat)
    requires Conserved(p, held) && id in held
    ensures CanFree(p, held[id]) && Conserved(Free(p, held[id]), held - {id})
  {
    var p', held' := Free(p, held[id]), held - {id};
    forall s: nat | s < p.capacity && s !in p'.free ensures s in held'.Values {
      assert s !in p.free && s in held.Values;
      var a :| a in held && held[a] == s;
      assert a != id && held'[a] == s;
    }
  }

  /** Popping and pushing back the same slot leaves the very same free list. */
  lemma AllocThenFree(p: Pool)
    requires NoDuplicates(p.free) && p.free != [] && p.free[|p.free| - 1] < p.capacity
    ensures CanFree(Alloc(p).0, p.free[|p.free| - 1])
    ensures Free(Alloc(p).0, p.free[|p.free| - 1]) == p
  {
  }

  lemma {:induction false} DistinctInRange(s: seq<nat>, n: nat)
    requires NoDuplicates(s)
    requires forall i :: 0 <= i < |s| ==> s[i] < n
    requires forall x: nat :: x < n ==> x in s
    ensures |s| == n
  {
    if n == 0 {
      assert s == [];
    } else {
      assert n - 1 in s;
      var k :| 0 <= k < |s| && s[k] == n - 1;
      var rest := s[..k] + s[k + 1..];
      forall x: nat | x < n - 1 ensures x in rest {
        assert x in s;
        var i :| 0 <= i < |s| && s[i] == x;
        assert x == if i < k then rest[i] else rest[i - 1];
      }
      DistinctInRange(rest, n - 1);
    }
  }

  /** When nothing is held, the pool is full again. */
  lemma NothingHeldMeansFull(p: Pool)
    requires Conserved(p, map[])
    ensures |p.free| == p.capacity
    ensures forall slot: nat :: slot < p.capacity <==> slot in p.free
  {
    var none: map<nat, nat> := map[];
    assert forall slot: nat :: slot < p.capacity ==> slot in p.free || slot in none.Values;
    DistinctInRange(p.free, p.capacity);
  }
}

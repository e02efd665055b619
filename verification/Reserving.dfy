/**
 Handing memory out: new heap and mapping slots, which have no frame until they are
 touched, and backings created for them.
 */
module Reserving {
  import opened Bytes
  import opened Machine
  import opened Steps
  import opened Moves
  import opened Slotting
  import opened Changes
  import opened Faults
  import opened Teardown

  /** A new slot keeps the invariant, and only its own page looks different. */
  lemma SlotStep(s: State, pl: Place, slot: Slot, made: Option<Backing>, t: State)
    requires Good(s) && CanSlot(s, pl, slot, made) && !slot.cow && t == Slotted(s, pl, slot, made)
    ensures Good(t) && ViewsBut(s, t, pl)
    ensures pl in t.slots && View(t, pl) == Initial(t, pl)
  {
    SlotInv(s, pl, slot, made);
    SourcesAreKnown(s.slots, s.backings, s.procs);
    SlotViews(s, pl, slot, made, t);
    SlotEntries(s, pl, slot);
  }

  lemma SlotEntries(s: State, pl: Place, slot: Slot)
    requires CowsOk(s.slots, s.resident) && !slot.cow
    ensures CowsOk(s.slots[pl := slot], s.resident)
  {
  }

  const HEAP_SLOT: Slot := Slot(Heap, Prot(true, true, false), false, Anonymous)

  function HeapPlace(pid: nat, k: nat): Place {
    Place(pid, HEAP_START + k * PAGE)
  }

  /** A new heap page reads as zero. */
  lemma HeapSlotStep(s: State, pid: nat, k: nat)
    requires Good(s) && pid in s.procs && k < MAX_HEAP_PAGES && HeapPlace(pid, k) !in s.slots
    ensures Good(s.(slots := s.slots[HeapPlace(pid, k) := HEAP_SLOT]))
    ensures ViewsBut(s, s.(slots := s.slots[HeapPlace(pid, k) := HEAP_SLOT]), HeapPlace(pid, k))
    ensures View(s.(slots := s.slots[HeapPlace(pid, k) := HEAP_SLOT]), HeapPlace(pid, k)) == Some(ZeroPage())
  {
    var pl := HeapPlace(pid, k);
    HeapAligned(pid, k);
    var t := s.(slots := s.slots[pl := HEAP_SLOT]);
    SlotStep(s, pl, HEAP_SLOT, None, t);
  }

  lemma HeapAligned(pid: nat, k: nat)
    requires k < MAX_HEAP_PAGES
    ensures HeapPlace(pid, k).page % PAGE == 0 && HEAP_START <= HeapPlace(pid, k).page < HEAP_END
  {
  }

  predicate InHeap(q: Place, pid: nat, from: nat, to: nat) {
    q.pid == pid && q.page % PAGE == 0 && HEAP_START + from * PAGE <= q.page < HEAP_START + to * PAGE
  }

  /** The heap pages from number `from` up to `to` have been added, reading as zero, and nothing else changed. */
  ghost predicate HeapGrown(s: State, t: State, pid: nat, from: nat, to: nat) {
    && (forall q :: q in t.slots <==> q in s.slots || InHeap(q, pid, from, to))
    && (forall q :: q in t.slots ==> t.slots[q] == if q in s.slots then s.slots[q] else HEAP_SLOT)
    && (forall q :: View(t, q) == if q !in s.slots && InHeap(q, pid, from, to) then Some(ZeroPage()) else View(s, q))
  }

  lemma InHeapMore(q: Place, pid: nat, from: nat, to: nat)
    requires from <= to
    ensures InHeap(q, pid, from, to + 1) <==> InHeap(q, pid, from, to) || q == HeapPlace(pid, to)
  {
  }

  lemma HeapGrownMore(s: State, t: State, u: State, pid: nat, from: nat, to: nat)
    requires HeapGrown(s, t, pid, from, to) && from <= to
    requires HeapPlace(pid, to) in t.slots ==> u == t
    requires HeapPlace(pid, to) !in t.slots ==>
      && u.slots == t.slots[HeapPlace(pid, to) := HEAP_SLOT]
      && ViewsBut(t, u, HeapPlace(pid, to)) && View(u, HeapPlace(pid, to)) == Some(ZeroPage())
    ensures HeapGrown(s, u, pid, from, to + 1)
  {
    var pl := HeapPlace(pid, to);
    assert !InHeap(pl, pid, from, to);
    forall q
      ensures InHeap(q, pid, from, to + 1) <==> InHeap(q, pid, from, to) || q == pl
    {
      InHeapMore(q, pid, from, to);
    }
  }

  /** The number of heap pages below a break. */
  function HeapPages(breakAt: nat): nat
    requires HEAP_START <= breakAt
  {
    (breakAt - HEAP_START + PAGE - 1) / PAGE
  }

  /** The heap slots of a process from page number `keep` on. */
  function HeapAbove(s: State, pid: nat, keep: nat): set<Place> {
    set pl | pl in s.slots && pl.pid == pid && s.slots[pl].region.Heap? && pl.page >= HEAP_START + keep * PAGE
  }

  lemma HeapGrownKept(s: State, t: State, u: State, pid: nat, from: nat, to: nat)
    requires HeapGrown(s, t, pid, from, to) && t.slots == u.slots && SameViews(t, u)
    ensures HeapGrown(s, u, pid, from, to)
  {
  }

  lemma ViewsOutsideKept(s: State, t: State, u: State, gone: set<Place>)
    requires ViewsOutside(s, t, gone) && SameViews(t, u)
    ensures ViewsOutside(s, u, gone)
  {
    forall q | q !in gone
      ensures View(u, q) == View(s, q)
    {
      assert View(t, q) == View(s, q);
    }
  }
}

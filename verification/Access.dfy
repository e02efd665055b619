/**
 Which accesses a process can make, told from its slots and its break alone: what the fault
 handler permits is exactly what the operations that gave it the memory promised
 (xscore/kernel/process.c).
 */
module Access {
  import opened Bytes
  import opened Machine
  import opened Steps
  import opened Faults
  import opened Reserving
  import opened Forking

  // ---------- Rights ----------

  /** A mapping that was readable once stays so while its page is in memory. */
  ghost predicate MayBeRead(s: State, pl: Place) {
    if pl !in s.slots then InStack(pl.page)
    else
      match s.slots[pl].region
      case Mapping => s.slots[pl].prot != PROT_NONE || SlotCell(pl) in s.resident
      case Tracked => View(s, pl).Some?
      case Heap => SlotCell(pl) in s.resident || (pl.pid in s.procs && pl.page < s.procs[pl.pid].heapBreak)
  }

  ghost predicate MayBeWritten(s: State, pl: Place) {
    MayBeRead(s, pl) && (pl in s.slots ==> s.slots[pl].prot.write)
  }

  /** A page of a running process can be accessed, at once or after a fault, exactly as its slot says. */
  lemma AccessIs(s: State, pid: nat, page: nat)
    requires Good(s) && pid in s.procs && s.procs[pid].stackBottom != 0 && page % PAGE == 0
    ensures Accessible(s, pid, page, false) <==> MayBeRead(s, Place(pid, page))
    ensures Accessible(s, pid, page, true) <==> MayBeWritten(s, Place(pid, page))
  {
    var pl := Place(pid, page);
    EntryFacts(s, pl);
    assert page / PAGE * PAGE == page;
  }

  lemma EntryFacts(s: State, pl: Place)
    requires Good(s)
    ensures pl in s.pt ==>
      pl in s.slots && SlotCell(pl) in s.resident && (s.pt[pl].writable <==> s.slots[pl].prot.write && !s.slots[pl].cow)
    ensures pl in s.slots && SlotCell(pl) in s.resident ==>
      View(s, pl).Some? && (s.slots[pl].prot != PROT_NONE ==> pl in s.pt)
    ensures pl in s.slots && s.slots[pl].cow ==> SlotCell(pl) in s.resident
    ensures pl in s.slots && !s.slots[pl].region.Mapping? ==> s.slots[pl].prot != PROT_NONE
    ensures pl in s.slots && s.slots[pl].region.Heap? ==> HEAP_START <= pl.page
  {
    assert pl in s.pt ==> PteOk(pl, s.pt[pl], s.tables, s.slots, s.resident);
    assert pl in s.slots ==> SlotOk(pl, s.slots[pl], s.backings, s.procs);
    if SlotCell(pl) in s.resident {
      FrameKnown(s, SlotCell(pl));
    }
  }

  // ---------- The heap ----------

  /** The heap slots are the pages below the break, where no program page is in the way. */
  ghost predicate HeapWhole(s: State, pid: nat) {
    pid in s.procs && forall page: nat | page % PAGE == 0 :: HeapPageOk(s, pid, page)
  }

  ghost predicate HeapPageOk(s: State, pid: nat, page: nat)
    requires pid in s.procs
  {
    var pl := Place(pid, page);
    && (pl in s.slots && s.slots[pl].region.Heap? ==> page < s.procs[pid].heapBreak)
    && (HEAP_START <= page < s.procs[pid].heapBreak ==> pl in s.slots)
  }

  /** Whether every address below the break of a running process can be read and written. */
  ghost predicate HeapUsable(s: State, pid: nat)
    requires pid in s.procs
  {
    s.procs[pid].stackBottom != 0 ==>
      forall address: nat, write: bool {:trigger BelowBreak(s, pid, address, write)} ::
        HEAP_START <= address < s.procs[pid].heapBreak ==> BelowBreak(s, pid, address, write)
  }

  /** A program page may lie in the heap; any other page there can be accessed at once or after a fault. */
  ghost predicate BelowBreak(s: State, pid: nat, address: nat, write: bool)
    requires pid in s.procs
  {
    var pl := Place(pid, address / PAGE * PAGE);
    pl in s.slots && (s.slots[pl].region.Tracked? || Accessible(s, pid, pl.page, write))
  }

  lemma BreakGrants(s: State, pid: nat)
    requires Good(s) && HeapWhole(s, pid)
    ensures HeapUsable(s, pid)
  {
    if s.procs[pid].stackBottom != 0 {
      forall address: nat, write: bool | HEAP_START <= address < s.procs[pid].heapBreak
        ensures BelowBreak(s, pid, address, write)
      {
        HeapAddress(s, pid, address, write);
      }
    }
  }

  lemma HeapAddress(s: State, pid: nat, address: nat, write: bool)
    requires Good(s) && HeapWhole(s, pid) && s.procs[pid].stackBottom != 0
    requires HEAP_START <= address < s.procs[pid].heapBreak
    ensures BelowBreak(s, pid, address, write)
  {
    var page := address / PAGE * PAGE;
    AccessIs(s, pid, page);
    assert HeapPageOk(s, pid, page);
    assert ProcOk(s.procs[pid]);
    assert SlotOk(Place(pid, page), s.slots[Place(pid, page)], s.backings, s.procs);
  }

  lemma HeapPagesBelow(breakAt: nat, page: nat)
    requires HEAP_START <= breakAt && page % PAGE == 0
    ensures HEAP_START <= page ==> (page < breakAt <==> page < HEAP_START + HeapPages(breakAt) * PAGE)
  {
    assert HEAP_START % PAGE == 0;
    if HEAP_START <= page {
      var k := (page - HEAP_START) / PAGE;
      assert page == HEAP_START + k * PAGE;
    }
  }

  /** Moving the break adds or takes exactly the pages between. */
  lemma BreakMoves(s: State, t: State, pid: nat, breakAt: nat)
    requires HeapWhole(s, pid) && HEAP_START <= breakAt && HEAP_START <= s.procs[pid].heapBreak
    requires SlotsOk(s.slots, s.backings, s.procs)
    requires t.procs == s.procs[pid := s.procs[pid].(heapBreak := breakAt)]
    requires if breakAt >= s.procs[pid].heapBreak
      then HeapGrown(s, t, pid, HeapPages(s.procs[pid].heapBreak), HeapPages(breakAt))
      else t.slots == s.slots - HeapAbove(s, pid, HeapPages(breakAt))
    ensures HeapWhole(t, pid)
  {
    forall page: nat | page % PAGE == 0
      ensures HeapPageOk(t, pid, page)
    {
      assert HeapPageOk(s, pid, page);
      HeapPagesBelow(breakAt, page);
      HeapPagesBelow(s.procs[pid].heapBreak, page);
      assert Place(pid, page) in s.slots ==> SlotOk(Place(pid, page), s.slots[Place(pid, page)], s.backings, s.procs);
    }
  }

  /** A page is a heap page as before, and if it lay below the break it still has a slot. */
  ghost predicate HeapPageStays(slots: Slots, pid: nat, slots': Slots, pid': nat, page: nat) {
    var pl, pl' := Place(pid, page), Place(pid', page);
    && (pl' in slots' && slots'[pl'].region.Heap? ==> pl in slots && slots[pl].region.Heap?)
    && (HEAP_START <= page < HEAP_END && pl in slots ==> pl' in slots')
  }

  lemma HeapStays(s: State, pid: nat, t: State, pid': nat)
    requires HeapWhole(s, pid) && pid' in t.procs && t.procs[pid'].heapBreak == s.procs[pid].heapBreak <= HEAP_END
    requires forall page: nat :: HeapPageStays(s.slots, pid, t.slots, pid', page)
    ensures HeapWhole(t, pid')
  {
    forall page: nat | page % PAGE == 0
      ensures HeapPageOk(t, pid', page)
    {
      assert HeapPageOk(s, pid, page) && HeapPageStays(s.slots, pid, t.slots, pid', page);
    }
  }

  // ---------- After a fork ----------

  /** Only the child's place has gained or lost a frame. */
  ghost predicate ResidentsBut(resident: Residents, resident': Residents, cpl: Place) {
    forall q: Place :: q != cpl ==> (SlotCell(q) in resident' <==> SlotCell(q) in resident)
  }

  /** The copies of the slots in `done` have frames where their originals had, and nobody else has lost one. */
  ghost predicate Resided(resident: Residents, resident': Residents, child: nat, done: set<Place>) {
    && (forall q: Place :: q.pid != child ==> (SlotCell(q) in resident' <==> SlotCell(q) in resident))
    && (forall q :: q in done ==> (SlotCell(Place(child, q.page)) in resident' <==> SlotCell(q) in resident))
  }

  ghost predicate Copying(s: State, t: State, parent: nat, child: nat, done: set<Place>) {
    Forked(s, t, parent, child, done) && SameShared(s, t) && Resided(s.resident, t.resident, child, done)
  }

  lemma ResidedMore(a: Residents, b: Residents, c: Residents, child: nat, done: set<Place>, pl: Place)
    requires Resided(a, b, child, done) && ResidentsBut(b, c, Place(child, pl.page)) && pl.pid != child
    requires SlotCell(Place(child, pl.page)) in c <==> SlotCell(pl) in b
    requires forall q :: q in done ==> q.pid == pl.pid && q != pl
    ensures Resided(a, c, child, done + {pl})
  {
    forall q | q in done
      ensures SlotCell(Place(child, q.page)) in c <==> SlotCell(q) in a
    {
      assert Place(child, q.page) != Place(child, pl.page);
    }
  }

  /** What one process could access before, another or the same can access afterwards, and nothing else. */
  ghost predicate SameAccess(s: State, pid: nat, t: State, pid': nat)
    requires pid in s.procs && pid' in t.procs
  {
    forall page: nat, write: bool | page % PAGE == 0 ::
      Accessible(t, pid', page, write) <==> Accessible(s, pid, page, write)
  }

  lemma RightsMove(s: State, pid: nat, t: State, pid': nat)
    requires Good(s) && Good(t) && pid in s.procs && pid' in t.procs && t.procs[pid'] == s.procs[pid]
    requires s.procs[pid].stackBottom != 0
    requires forall page: nat :: RightsAt(s, Place(pid, page), t, Place(pid', page))
    ensures SameAccess(s, pid, t, pid')
  {
    forall page: nat, write: bool | page % PAGE == 0
      ensures Accessible(t, pid', page, write) <==> Accessible(s, pid, page, write)
    {
      AccessIs(s, pid, page);
      AccessIs(t, pid', page);
      assert RightsAt(s, Place(pid, page), t, Place(pid', page));
    }
  }

  /** Two places with the same kind of slot, in memory together, that show the same. */
  ghost predicate RightsAt(s: State, pl: Place, t: State, cpl: Place) {
    && (pl in s.slots <==> cpl in t.slots)
    && (pl in s.slots ==> t.slots[cpl].region == s.slots[pl].region && t.slots[cpl].prot == s.slots[pl].prot)
    && (SlotCell(cpl) in t.resident <==> SlotCell(pl) in s.resident) && View(t, cpl) == View(s, pl)
  }

  /** The child of a fork can access exactly what its parent could, and so can everyone else. */
  lemma ForkRights(s: State, t: State, parent: nat, child: nat, pid: nat)
    requires Good(s) && Good(t) && parent in s.procs && child !in s.procs && pid in s.procs
    requires t.procs == s.procs[child := s.procs[parent]]
    requires Forked(s, t, parent, child, SlotsOf(s, parent))
    requires Resided(s.resident, t.resident, child, SlotsOf(s, parent))
    ensures s.procs[parent].stackBottom != 0 ==> SameAccess(s, parent, t, child)
    ensures s.procs[pid].stackBottom != 0 ==> SameAccess(s, pid, t, pid)
  {
    NoSlots(s, child);
    forall page: nat
      ensures RightsAt(s, Place(parent, page), t, Place(child, page))
      ensures RightsAt(s, Place(pid, page), t, Place(pid, page))
    {
      ForkRightsAt(s, t, parent, child, pid, page);
    }
    if s.procs[parent].stackBottom != 0 {
      RightsMove(s, parent, t, child);
    }
    if s.procs[pid].stackBottom != 0 {
      RightsMove(s, pid, t, pid);
    }
  }

  ghost predicate AccessInherited(s: State, t: State, parent: nat, child: nat)
    requires parent in s.procs && child in t.procs && s.procs.Keys <= t.procs.Keys
  {
    && (s.procs[parent].stackBottom != 0 ==> SameAccess(s, parent, t, child))
    && forall pid :: pid in s.procs && s.procs[pid].stackBottom != 0 ==> SameAccess(s, pid, t, pid)
  }

  lemma AccessForked(s: State, t: State, parent: nat, child: nat)
    requires Good(s) && Good(t) && parent in s.procs && child !in s.procs
    requires t.procs == s.procs[child := s.procs[parent]]
    requires Forked(s, t, parent, child, SlotsOf(s, parent))
    requires Resided(s.resident, t.resident, child, SlotsOf(s, parent))
    ensures AccessInherited(s, t, parent, child)
  {
    ForkRights(s, t, parent, child, parent);
    forall pid | pid in s.procs
      ensures s.procs[pid].stackBottom != 0 ==> SameAccess(s, pid, t, pid)
    {
      ForkRights(s, t, parent, child, pid);
    }
  }

  lemma ForkRightsAt(s: State, t: State, parent: nat, child: nat, pid: nat, page: nat)
    requires CellsOk(s.resident, s.slots, s.backings) && CellsOk(t.resident, t.slots, t.backings)
    requires parent in s.procs && child !in s.procs && pid in s.procs && child in t.procs
    requires forall q :: q in s.slots ==> q.pid != child
    requires Forked(s, t, parent, child, SlotsOf(s, parent))
    requires Resided(s.resident, t.resident, child, SlotsOf(s, parent))
    ensures RightsAt(s, Place(parent, page), t, Place(child, page))
    ensures RightsAt(s, Place(pid, page), t, Place(pid, page))
  {
    var pl, cpl := Place(parent, page), Place(child, page);
    assert SlotCell(cpl) in t.resident ==> CellOk(SlotCell(cpl), t.slots, t.backings);
    assert SlotCell(pl) in s.resident ==> CellOk(SlotCell(pl), s.slots, s.backings);
    assert cpl in t.slots ==> Place(parent, cpl.page) == pl && pl in s.slots;
  }
}

/**
 Copy-on-write fork, slot by slot: a slot is reserved in the child, and a frame that
 the parent has is shared with it, read-only on both sides unless the mapping is a
 shared one.
 */
module Forking {
  import opened Bytes
  import opened Machine
  import opened Steps
  import opened Moves
  import opened Slotting
  import opened Changes
  import opened Faults
  import opened Teardown
  import opened Reserving

  /** What fork keeps of the slots that were there: everything but the copy-on-write mark. */
  ghost predicate SlotsKept(s: Slots, t: Slots) {
    forall q :: q in s ==> q in t && SameShape(t[q], s[q]) && t[q].prot == s[q].prot
  }

  /** The child's slot is like the parent's: same region, source and protection. */
  ghost predicate Inherits(s: Slots, pl: Place, t: Slots, cpl: Place) {
    pl in s && cpl in t && SameShape(t[cpl], s[pl]) && t[cpl].prot == s[pl].prot
  }

  lemma InheritsKept(s: Slots, pl: Place, t: Slots, u: Slots, cpl: Place)
    requires Inherits(s, pl, t, cpl) && SlotsKept(t, u)
    ensures Inherits(s, pl, u, cpl)
  {
  }

  // ---------- The child's slot ----------

  function Twin(slot: Slot): Slot {
    slot.(cow := false)
  }

  lemma TwinOk(s: State, pl: Place, child: nat)
    requires Good(s) && pl in s.slots && child in s.procs && Place(child, pl.page) !in s.slots
    ensures CanSlot(s, Place(child, pl.page), Twin(s.slots[pl]), None)
  {
    assert SlotOk(pl, s.slots[pl], s.backings, s.procs);
  }

  /** A slot without a frame is copied: the child sees what the parent sees. */
  lemma ReserveTwinStep(s: State, pl: Place, child: nat, t: State)
    requires Good(s) && pl in s.slots && child in s.procs && Place(child, pl.page) !in s.slots
    requires t == Slotted(s, Place(child, pl.page), Twin(s.slots[pl]), None)
    ensures Good(t) && ViewsBut(s, t, Place(child, pl.page))
    ensures pl.pid in s.procs && s.procs[child].program == s.procs[pl.pid].program && SlotCell(pl) !in s.resident ==>
      View(t, Place(child, pl.page)) == View(s, pl)
  {
    var cpl := Place(child, pl.page);
    TwinOk(s, pl, child);
    SlotStep(s, cpl, Twin(s.slots[pl]), None, t);
    if pl.pid in s.procs && s.procs[child].program == s.procs[pl.pid].program && SlotCell(pl) !in s.resident {
      TwinView(s, pl, child, t);
    }
  }

  lemma TwinView(s: State, pl: Place, child: nat, t: State)
    requires pl in s.slots && child in s.procs && pl.pid in s.procs && s.procs[child].program == s.procs[pl.pid].program
    requires SlotCell(pl) !in s.resident
    requires t == Slotted(s, Place(child, pl.page), Twin(s.slots[pl]), None)
    ensures Initial(t, Place(child, pl.page)) == View(s, pl)
  {
    assert t.frames == s.frames && t.resident == s.resident && t.backings == s.backings && t.procs == s.procs;
    SourceKeptBy(s, t, s.slots[pl].source);
  }

  // ---------- Sharing a frame ----------

  /** Whether the slot must be copied on the next write. */
  predicate NeedsCow(slot: Slot) {
    !slot.source.Shared? && (!slot.region.Tracked? || slot.prot.write)
  }

  /** The parent's slot after it has been made copy-on-write. */
  function ParentSide(s: State, pl: Place): State
    requires pl in s.slots
  {
    if NeedsCow(s.slots[pl]) && !s.slots[pl].cow then Demoted(s, pl) else s
  }

  /** The child's slot takes a further reference to the parent's frame. */
  function ChildSide(s: State, cpl: Place, f: nat): State
    requires cpl in s.slots && f in s.refs
  {
    var slot := s.slots[cpl];
    Attached(Recowed(s, cpl, NeedsCow(slot)), cpl, f, slot.prot != PROT_NONE, slot.prot.write && !NeedsCow(slot))
  }

  lemma ParentStep(s: State, pl: Place)
    requires Good(s) && pl in s.slots && SlotCell(pl) in s.resident
    ensures Good(ParentSide(s, pl)) && SameViews(s, ParentSide(s, pl))
    ensures NeedsCow(s.slots[pl]) ==> ParentSide(s, pl).slots[pl].cow
  {
    if NeedsCow(s.slots[pl]) && !s.slots[pl].cow {
      DemoteInv(s, pl);
      assert SlotOk(pl, s.slots[pl], s.backings, s.procs);
      DemoteEntries(s, pl);
      RecowViews(s, Demoted(s, pl), pl, true);
    }
  }

  lemma DemoteEntries(s: State, pl: Place)
    requires CowsOk(s.slots, s.resident) && pl in s.slots && SlotCell(pl) in s.resident && NeedsCow(s.slots[pl])
    requires s.slots[pl].region.Heap? ==> s.slots[pl].prot.write
    ensures CowsOk(Demoted(s, pl).slots, s.resident)
  {
  }

  /** The slots are twins, and the parent's frame may be written by nobody without a copy. */
  ghost predicate Shareable(s: State, pl: Place, cpl: Place) {
    && pl in s.slots && cpl in s.slots && cpl != pl
    && SameShape(s.slots[pl], s.slots[cpl]) && s.slots[pl].prot == s.slots[cpl].prot
    && SlotCell(pl) in s.resident && SlotCell(cpl) !in s.resident
    && (NeedsCow(s.slots[pl]) ==> s.slots[pl].cow)
  }

  lemma ChildJoins(s: State, pl: Place, cpl: Place, t: State)
    requires Inv(s) && Shareable(s, pl, cpl)
    requires t == Recowed(s, cpl, NeedsCow(s.slots[cpl]))
    ensures Inv(t) && CanJoin(t.resident, t.slots, SlotCell(cpl), s.resident[SlotCell(pl)])
  {
    RecowCommon(s, cpl, NeedsCow(s.slots[cpl]));
    RetwinPtes(s, cpl, NeedsCow(s.slots[cpl]));
    ChildJoinsBeside(t, pl, cpl);
  }

  lemma RetwinPtes(s: State, cpl: Place, cow: bool)
    requires cpl in s.slots && SlotCell(cpl) !in s.resident
    requires PtesSound(s.pt, s.tables, s.slots, s.resident) && PtesComplete(s.pt, s.slots, s.resident)
    ensures PtesSound(s.pt, s.tables, Recowed(s, cpl, cow).slots, s.resident)
    ensures PtesComplete(s.pt, Recowed(s, cpl, cow).slots, s.resident)
  {
    assert cpl in s.pt ==> PteOk(cpl, s.pt[cpl], s.tables, s.slots, s.resident);
  }

  lemma ChildJoinsBeside(t: State, pl: Place, cpl: Place)
    requires Separated(t.resident, t.slots) && SharedAgree(t.resident, t.slots)
    requires pl in t.slots && cpl in t.slots && SameShape(t.slots[pl], t.slots[cpl])
    requires t.slots[pl].prot == t.slots[cpl].prot
    requires SlotCell(pl) in t.resident && SlotCell(cpl) !in t.resident
    requires NeedsCow(t.slots[pl]) ==> t.slots[pl].cow && t.slots[cpl].cow
    ensures CanJoin(t.resident, t.slots, SlotCell(cpl), t.resident[SlotCell(pl)])
  {
    if t.slots[pl].source.Shared? {
      JoinBeside(t.resident, t.slots, SlotCell(cpl), BackingCell(t.slots[pl].source.backing, t.slots[pl].source.index));
    } else {
      JoinBeside(t.resident, t.slots, SlotCell(cpl), SlotCell(pl));
    }
  }

  lemma ChildStep(s: State, pl: Place, cpl: Place, f: nat)
    requires Good(s) && Shareable(s, pl, cpl) && f == s.resident[SlotCell(pl)] && f in s.refs
    ensures Good(ChildSide(s, cpl, f)) && ViewsBut(s, ChildSide(s, cpl, f), cpl)
    ensures View(ChildSide(s, cpl, f), cpl) == View(s, pl)
  {
    var slot := s.slots[cpl];
    var t := Recowed(s, cpl, NeedsCow(slot));
    ChildJoins(s, pl, cpl, t);
    AttachInv(t, cpl, f, slot.prot != PROT_NONE, slot.prot.write && !NeedsCow(slot));
    assert SlotOk(cpl, s.slots[cpl], s.backings, s.procs);
    ChildFields(s, cpl, f, ChildSide(s, cpl, f));
    ChildEntries(s, cpl, f, ChildSide(s, cpl, f));
    FrameKnown(s, SlotCell(pl));
    ChildViews(s, pl, cpl, f, ChildSide(s, cpl, f));
  }

  lemma ChildFields(s: State, cpl: Place, f: nat, t: State)
    requires cpl in s.slots && f in s.refs && t == ChildSide(s, cpl, f)
    ensures t.frames == s.frames && t.resident == s.resident[SlotCell(cpl) := f]
    ensures t.procs == s.procs && t.backings == s.backings
    ensures t.slots == s.slots[cpl := s.slots[cpl].(cow := NeedsCow(s.slots[cpl]))]
  {
  }

  lemma ChildEntries(s: State, cpl: Place, f: nat, t: State)
    requires CowsOk(s.slots, s.resident) && cpl in s.slots
    requires s.slots[cpl].region.Heap? ==> s.slots[cpl].prot.write
    requires t.resident == s.resident[SlotCell(cpl) := f]
    requires t.slots == s.slots[cpl := s.slots[cpl].(cow := NeedsCow(s.slots[cpl]))]
    ensures CowsOk(t.slots, t.resident)
  {
  }

  lemma ChildViews(s: State, pl: Place, cpl: Place, f: nat, t: State)
    requires Shareable(s, pl, cpl) && f == s.resident[SlotCell(pl)] && f in s.frames
    requires t.frames == s.frames && t.resident == s.resident[SlotCell(cpl) := f]
    requires t.procs == s.procs && t.backings == s.backings
    requires t.slots == s.slots[cpl := s.slots[cpl].(cow := NeedsCow(s.slots[cpl]))]
    ensures ViewsBut(s, t, cpl) && View(t, cpl) == View(s, pl)
  {
    JoinHeld(s.frames, s.resident, SlotCell(cpl), f);
    forall q | q != cpl
      ensures View(t, q) == View(s, q)
    {
      if q in s.slots {
        SourceHeld(s, t, s.slots[q].source);
      }
      ViewKept(s, t, q);
    }
  }

  lemma TwinSlots(s: State, cpl: Place, slot: Slot)
    requires cpl !in s.slots
    ensures SlotsKept(s.slots, Slotted(s, cpl, slot, None).slots)
    ensures Slotted(s, cpl, slot, None).slots.Keys == s.slots.Keys + {cpl}
  {
  }

  lemma ParentSlots(s: State, pl: Place, cpl: Place)
    requires pl in s.slots && cpl in s.slots && cpl != pl && SlotCell(pl) in s.resident && SlotCell(cpl) !in s.resident
    requires SameShape(s.slots[pl], s.slots[cpl]) && s.slots[pl].prot == s.slots[cpl].prot
    requires NeedsCow(s.slots[pl]) ==> ParentSide(s, pl).slots[pl].cow
    ensures Shareable(ParentSide(s, pl), pl, cpl)
    ensures SlotsKept(s.slots, ParentSide(s, pl).slots) && ParentSide(s, pl).slots.Keys == s.slots.Keys
    ensures ParentSide(s, pl).resident == s.resident && ParentSide(s, pl).refs == s.refs
    ensures ParentSide(s, pl).procs == s.procs
  {
  }

  lemma ParentShared(s: State, pl: Place)
    requires pl in s.slots
    ensures SameShared(s, ParentSide(s, pl))
  {
    if NeedsCow(s.slots[pl]) && !s.slots[pl].cow {
      SharedUntouched(s, Demoted(s, pl));
    }
  }

  lemma ChildShared(s: State, pl: Place, cpl: Place, f: nat, t: State)
    requires Good(s) && SlotCell(pl) in s.resident && s.resident[SlotCell(pl)] == f
    requires t.frames == s.frames && t.resident == s.resident[SlotCell(cpl) := f] && t.backings == s.backings
    ensures SameShared(s, t)
  {
    FrameKnown(s, SlotCell(pl));
    JoinShared(s, SlotCell(cpl), f, t);
  }

  lemma ChildSlots(s: State, t: State, cpl: Place)
    requires cpl in s.slots && t.slots == s.slots[cpl := s.slots[cpl].(cow := NeedsCow(s.slots[cpl]))]
    ensures SlotsKept(s.slots, t.slots) && t.slots.Keys == s.slots.Keys
  {
  }

  lemma SlotsKeptTwice(s: Slots, t: Slots, u: Slots)
    requires SlotsKept(s, t) && SlotsKept(t, u)
    ensures SlotsKept(s, u)
  {
  }

  lemma TwinFresh(s: State, cpl: Place)
    requires Good(s) && cpl !in s.slots
    ensures SlotCell(cpl) !in s.resident
  {
    assert SlotCell(cpl) in s.resident ==> CellOk(SlotCell(cpl), s.slots, s.backings);
  }

  lemma ForkFacts(s: State, pl: Place)
    requires Good(s) && pl in s.slots && SlotCell(pl) in s.resident
    ensures s.resident[SlotCell(pl)] in s.refs && s.refs[s.resident[SlotCell(pl)]] > 0
    ensures s.slots[pl].prot != PROT_NONE ==> pl in s.pt
    ensures pl in s.pt ==> PteOk(pl, s.pt[pl], s.tables, s.slots, s.resident)
  {
    FrameKnown(s, SlotCell(pl));
  }

  // ---------- The whole address space ----------

  /** All slots of a process. */
  function SlotsOf(s: State, pid: nat): set<Place> {
    set pl | pl in s.slots && pl.pid == pid
  }

  /**
   The slots of `parent` in `done` have been copied to `child`: the copies show what the
   parent showed at the start, and no other process sees a change.
   */
  ghost predicate Forked(s: State, t: State, parent: nat, child: nat, done: set<Place>) {
    && SlotsKept(s.slots, t.slots)
    && (forall q :: q in t.slots ==> q in s.slots || (q.pid == child && Place(parent, q.page) in done))
    && (forall q :: q in done ==> Inherits(s.slots, q, t.slots, Place(child, q.page)))
    && (forall q: Place :: q.pid != child ==> View(t, q) == View(s, q))
    && (forall q :: q in done ==> View(t, Place(child, q.page)) == View(s, q))
  }

  /** One more slot. */
  lemma ForkedMore(s: State, t: State, u: State, parent: nat, child: nat, done: set<Place>, pl: Place)
    requires Forked(s, t, parent, child, done) && parent != child && pl.pid == parent && pl !in done
    requires forall q :: q in done ==> q.pid == parent
    requires SlotsKept(t.slots, u.slots) && u.slots.Keys == t.slots.Keys + {Place(child, pl.page)}
    requires ViewsBut(t, u, Place(child, pl.page))
    requires View(u, Place(child, pl.page)) == View(s, pl)
    requires pl in s.slots && Inherits(t.slots, pl, u.slots, Place(child, pl.page))
    ensures Forked(s, u, parent, child, done + {pl})
  {
    var cpl := Place(child, pl.page);
    forall q | q in done
      ensures View(u, Place(child, q.page)) == View(s, q)
      ensures Inherits(s.slots, q, u.slots, Place(child, q.page))
    {
      InheritsKept(s.slots, q, t.slots, u.slots, Place(child, q.page));
      assert Place(child, q.page) != cpl;
      assert View(u, Place(child, q.page)) == View(t, Place(child, q.page));
    }
    forall q: Place | q.pid != child
      ensures View(u, q) == View(s, q)
    {
      assert View(u, q) == View(t, q);
    }
    forall q | q in u.slots
      ensures q in s.slots || (q.pid == child && Place(parent, q.page) in done + {pl})
    {
      if q == cpl {
        assert Place(parent, q.page) == pl;
      }
    }
  }

  ghost predicate SlotInherited(s: State, t: State, parent: nat, child: nat, page: nat) {
    if Place(parent, page) in s.slots then Inherits(s.slots, Place(parent, page), t.slots, Place(child, page))
    else Place(child, page) !in t.slots
  }

  /** Once every slot is copied, the child sees exactly what the parent saw. */
  lemma ForkComplete(s: State, t: State, parent: nat, child: nat, done: set<Place>)
    requires Forked(s, t, parent, child, done)
    requires forall q :: q in done <==> q in s.slots && q.pid == parent
    requires forall q :: q in s.slots ==> q.pid != child
    requires parent in s.procs && child in t.procs
    ensures forall page: nat :: View(t, Place(child, page)) == View(s, Place(parent, page))
    ensures forall page: nat :: SlotInherited(s, t, parent, child, page)
  {
    forall page: nat
      ensures View(t, Place(child, page)) == View(s, Place(parent, page)) && SlotInherited(s, t, parent, child, page)
    {
      if Place(parent, page) in s.slots {
        assert Place(parent, page) in done;
      } else {
        assert Place(child, page) !in t.slots;
      }
    }
  }

  /** A fork that may have stopped half-way: only the child's places differ. */
  ghost predicate HalfForked(s: State, t: State, child: nat) {
    && SlotsKept(s.slots, t.slots)
    && (forall q :: q in t.slots ==> q in s.slots || q.pid == child)
    && (forall q: Place :: q.pid != child ==> View(t, q) == View(s, q))
  }

  lemma ForkedHalf(s: State, t: State, parent: nat, child: nat, done: set<Place>)
    requires Forked(s, t, parent, child, done)
    ensures HalfForked(s, t, child)
  {
  }

  lemma HalfMore(s: State, t: State, u: State, child: nat, page: nat)
    requires HalfForked(s, t, child) && ViewsBut(t, u, Place(child, page))
    requires SlotsKept(t.slots, u.slots) && u.slots.Keys == t.slots.Keys + {Place(child, page)}
    ensures HalfForked(s, u, child)
  {
    forall q: Place | q.pid != child
      ensures View(u, q) == View(s, q)
    {
      assert View(t, q) == View(s, q);
    }
  }

  /** A process that does not exist has no memory. */
  lemma NoSlots(s: State, pid: nat)
    requires Good(s) && pid !in s.procs
    ensures forall pl :: pl in s.slots ==> pl.pid != pid
  {
    forall pl | pl in s.slots
      ensures pl.pid != pid
    {
      assert SlotOk(pl, s.slots[pl], s.backings, s.procs);
    }
  }

  lemma ForkBegins(s: State, t: State, parent: nat, child: nat)
    requires t.slots == s.slots && forall q: Place :: q.pid != child ==> View(t, q) == View(s, q)
    ensures Forked(s, t, parent, child, {})
  {
  }

  /** The child's place of a slot that has not been copied yet is free. */
  lemma ForkNext(s: State, t: State, parent: nat, child: nat, done: set<Place>, pl: Place)
    requires Forked(s, t, parent, child, done) && parent != child
    requires forall q :: q in s.slots ==> q.pid != child
    requires pl in s.slots && pl.pid == parent && pl !in done
    ensures pl in t.slots && Place(child, pl.page) !in t.slots
    ensures View(t, pl) == View(s, pl)
  {
    var cpl := Place(child, pl.page);
    assert cpl in t.slots ==> cpl in s.slots || Place(parent, cpl.page) in done;
    assert Place(parent, cpl.page) == pl;
  }

  /** Undoing a fork that failed half-way leaves no trace. */
  lemma ForkUndone(s: State, t: State, child: nat)
    requires forall q: Place :: q.pid != child ==> View(t, q) == View(s, q)
    requires forall q: Place :: q.pid == child ==> q !in s.slots && q !in t.slots
    requires child !in s.procs && child !in t.procs
    ensures SameViews(s, t)
  {
    forall q
      ensures View(t, q) == View(s, q)
    {
    }
  }
}

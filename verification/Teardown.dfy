/**
 Taking memory away: slots give their frames back and disappear, the last holder of a
 backing frees it, and no other place sees a change.
 */
module Teardown {
  import opened Ledger
  import opened Machine
  import opened Steps
  import opened Moves
  import opened Slotting
  import opened Changes
  import opened Faults

  /** Nobody but the owner of `pl` sees a change, and there only in that page. */
  ghost predicate ViewsBut(s: State, t: State, pl: Place) {
    forall q :: q != pl ==> View(t, q) == View(s, q)
  }

  lemma ViewsButTwice(s: State, t: State, u: State, pl: Place)
    requires ViewsBut(s, t, pl) && ViewsBut(t, u, pl)
    ensures ViewsBut(s, u, pl)
  {
    forall q | q != pl
      ensures View(u, q) == View(s, q)
    {
      assert View(t, q) == View(s, q);
    }
  }

  lemma ViewsButSame(s: State, t: State, u: State, pl: Place)
    requires ViewsBut(s, t, pl) && SameViews(t, u)
    ensures ViewsBut(s, u, pl)
  {
    forall q | q != pl
      ensures View(u, q) == View(s, q)
    {
      assert View(t, q) == View(s, q);
    }
  }

  /** Only places in `gone` may look different. */
  ghost predicate ViewsOutside(s: State, t: State, gone: set<Place>) {
    forall q :: q !in gone ==> View(t, q) == View(s, q)
  }

  lemma ViewsOutsideMore(s: State, t: State, u: State, gone: set<Place>, pl: Place)
    requires ViewsOutside(s, t, gone) && ViewsBut(t, u, pl)
    ensures ViewsOutside(s, u, gone + {pl})
  {
    forall q | q !in gone + {pl}
      ensures View(u, q) == View(s, q)
    {
      assert View(t, q) == View(s, q);
    }
  }

  /** Backings may have been freed; those that are left are the same, byte for byte. */
  ghost predicate FewerShared(s: State, t: State) {
    forall b: nat :: b in t.backings ==> BackingKept(s, t, b)
  }

  ghost predicate BackingKept(s: State, t: State, b: nat) {
    && b in s.backings && b in t.backings && t.backings[b] == s.backings[b]
    && forall k: nat :: BackingPage(t, b, k) == BackingPage(s, b, k)
  }

  lemma FewerSharedTwice(s: State, t: State, u: State)
    requires FewerShared(s, t) && FewerShared(t, u)
    ensures FewerShared(s, u)
  {
    forall b: nat | b in u.backings
      ensures BackingKept(s, u, b)
    {
      assert BackingKept(t, u, b) && BackingKept(s, t, b);
      forall k: nat
        ensures BackingPage(u, b, k) == BackingPage(s, b, k)
      {
        assert BackingPage(t, b, k) == BackingPage(s, b, k);
      }
    }
  }

  lemma SameIsFewer(s: State, t: State)
    requires SameShared(s, t)
    ensures FewerShared(s, t)
  {
    forall b: nat | b in t.backings
      ensures BackingKept(s, t, b)
    {
    }
  }

  /** Only the bytes of backing `b` may differ. */
  ghost predicate SharedBut(s: State, t: State, b: nat) {
    t.backings == s.backings && forall c: nat, k: nat :: c != b ==> BackingPage(t, c, k) == BackingPage(s, c, k)
  }

  lemma SharedButTwice(s: State, t: State, u: State, b: nat)
    requires SharedBut(s, t, b) && SharedBut(t, u, b)
    ensures SharedBut(s, u, b)
  {
    forall c: nat, k: nat | c != b
      ensures BackingPage(u, c, k) == BackingPage(s, c, k)
    {
      assert BackingPage(t, c, k) == BackingPage(s, c, k);
    }
  }

  lemma FewerAfterDrop(s: State, t: State, u: State, b: nat)
    requires SharedBut(s, t, b) && FewerShared(t, u) && b !in u.backings
    ensures FewerShared(s, u)
  {
    forall c: nat | c in u.backings
      ensures BackingKept(s, u, c)
    {
      assert BackingKept(t, u, c);
      forall k: nat
        ensures BackingPage(u, c, k) == BackingPage(s, c, k)
      {
        assert BackingPage(t, c, k) == BackingPage(s, c, k);
      }
    }
  }

  // ---------- A slot gives its frame back ----------

  function Emptied(s: State, pl: Place): State
    requires pl in s.slots
    requires SlotCell(pl) in s.resident && s.resident[SlotCell(pl)] in s.refs && s.refs[s.resident[SlotCell(pl)]] > 0
  {
    Recowed(Evicted(s, pl), pl, false)
  }

  lemma EmptyEntries(s: State, pl: Place)
    requires CowsOk(s.slots, s.resident) && pl in s.slots
    ensures CowsOk(s.slots[pl := s.slots[pl].(cow := false)], s.resident - {SlotCell(pl)})
  {
  }

  lemma EmptyViews(s: State, pl: Place)
    requires FramesConserved(s.resident, s.refs, s.frames) && CanRelease(s, SlotCell(pl)) && pl in s.slots
    ensures ViewsBut(s, Emptied(s, pl), pl)
  {
    var t := Emptied(s, pl);
    ReleaseHeld(s, SlotCell(pl));
    forall q | q != pl
      ensures View(t, q) == View(s, q)
    {
      if q in s.slots {
        SourceHeld(s, t, s.slots[q].source);
      }
      ViewKept(s, t, q);
    }
  }

  lemma SourceHeld(s: State, t: State, source: Source)
    requires s.backings == t.backings
    requires forall c: Cell :: c.BackingCell? ==> Held(t.frames, t.resident, c) == Held(s.frames, s.resident, c)
    ensures SourcePage(t, source) == SourcePage(s, source)
  {
    if source.Shared? {
      var c := BackingCell(source.backing, source.index);
      assert Held(t.frames, t.resident, c) == Held(s.frames, s.resident, c);
    }
  }

  lemma EmptyShared(s: State, pl: Place)
    requires FramesConserved(s.resident, s.refs, s.frames) && CanRelease(s, SlotCell(pl)) && pl in s.slots
    ensures SameShared(s, Emptied(s, pl))
  {
    ReleaseHeld(s, SlotCell(pl));
    SharedByHeld(s, Emptied(s, pl));
  }

  lemma EmptyStep(s: State, pl: Place)
    requires Good(s) && pl in s.slots && SlotCell(pl) in s.resident
    ensures CanRelease(s, SlotCell(pl))
    ensures Good(Emptied(s, pl)) && ViewsBut(s, Emptied(s, pl), pl) && SameShared(s, Emptied(s, pl))
  {
    CellReleasable(s, SlotCell(pl));
    EmptyShared(s, pl);
    EvictInv(s, pl);
    RecowUnmapped(Evicted(s, pl), pl);
    EmptyEntries(s, pl);
    EmptyViews(s, pl);
  }

  // ---------- A backing gives its frames back ----------

  /** Only the slot at `pl` can still name the backing `b`. */
  ghost predicate LastSlot(s: State, pl: Place, b: nat) {
    forall q :: q in s.slots && q != pl && !s.slots[q].source.Anonymous? ==> s.slots[q].source.backing != b
  }

  lemma LastSlotFacts(s: State, pl: Place)
    requires Good(s) && pl in s.slots && !s.slots[pl].source.Anonymous?
    ensures s.slots[pl].source.backing in s.shares && s.shares[s.slots[pl].source.backing] > 0
    ensures s.shares[s.slots[pl].source.backing] == 1 ==> LastSlot(s, pl, s.slots[pl].source.backing)
  {
    LastHolder(s.attached, s.shares, s.slots, SlotRef(pl));
  }

  lemma LastHolder(attached: map<Attachment, nat>, shares: map<nat, nat>, slots: Slots, r: Attachment)
    requires Balanced(attached, shares) && AttachedAgree(attached, slots) && r in attached
    ensures attached[r] in shares && shares[attached[r]] > 0
    ensures shares[attached[r]] == 1 ==>
      forall q :: q in slots && SlotRef(q) != r && !slots[q].source.Anonymous? ==>
        slots[q].source.backing != attached[r]
  {
    if shares[attached[r]] == 1 {
      forall q | q in slots && SlotRef(q) != r && !slots[q].source.Anonymous?
        ensures slots[q].source.backing != attached[r]
      {
        SoleHolder(attached, shares, r, SlotRef(q));
      }
    }
  }

  lemma DropFrameViews(s: State, c: Cell, pl: Place)
    requires FramesConserved(s.resident, s.refs, s.frames) && CanRelease(s, c)
    requires c.BackingCell? && LastSlot(s, pl, c.backing)
    ensures ViewsBut(s, Released(s, c), pl)
  {
    var t := Released(s, c);
    ReleaseHeld(s, c);
    forall q | q != pl
      ensures View(t, q) == View(s, q)
    {
      if q in s.slots {
        assert s.slots[q].source.Shared? ==>
          Held(t.frames, t.resident, BackingCell(s.slots[q].source.backing, s.slots[q].source.index))
          == Held(s.frames, s.resident, BackingCell(s.slots[q].source.backing, s.slots[q].source.index));
        assert SourcePage(t, s.slots[q].source) == SourcePage(s, s.slots[q].source);
      }
      ViewKept(s, t, q);
    }
  }

  /** A backing whose only slot is empty can drop its frames one by one. */
  lemma DropFrameStep(s: State, c: Cell, pl: Place)
    requires Good(s) && c in s.resident && c.BackingCell? && LastSlot(s, pl, c.backing) && SlotCell(pl) !in s.resident
    ensures CanRelease(s, c)
    ensures Good(Released(s, c)) && ViewsBut(s, Released(s, c), pl) && SharedBut(s, Released(s, c), c.backing)
  {
    FrameKnown(s, c);
    DropFrameAlone(s, c, pl);
    DropFrameShared(s, c);
    ReleaseInv(s, c);
    UncacheEntries(s, c);
    DropFrameViews(s, c, pl);
  }

  lemma DropFrameShared(s: State, c: Cell)
    requires FramesConserved(s.resident, s.refs, s.frames) && CanRelease(s, c) && c.BackingCell?
    ensures SharedBut(s, Released(s, c), c.backing)
  {
    ReleaseHeld(s, c);
    var t := Released(s, c);
    forall b: nat, k: nat | b != c.backing
      ensures BackingPage(t, b, k) == BackingPage(s, b, k)
    {
      assert Held(t.frames, t.resident, BackingCell(b, k)) == Held(s.frames, s.resident, BackingCell(b, k));
    }
  }

  lemma DropFrameAlone(s: State, c: Cell, pl: Place)
    requires CellsOk(s.resident, s.slots, s.backings)
    requires c.BackingCell? && LastSlot(s, pl, c.backing) && SlotCell(pl) !in s.resident
    ensures forall q :: SlotCell(q) in s.resident ==> Key(s.slots, SlotCell(q)) != Key(s.slots, c)
  {
    forall q | SlotCell(q) in s.resident
      ensures Key(s.slots, SlotCell(q)) != Key(s.slots, c)
    {
      assert CellOk(SlotCell(q), s.slots, s.backings);
    }
  }

  // ---------- An empty slot disappears ----------

  lemma UnslotShared(s: State, pl: Place)
    requires CanUnslot(s, pl)
    ensures FewerShared(s, Unslotted(s, pl))
  {
    var t := Unslotted(s, pl);
    forall b: nat | b in t.backings
      ensures BackingKept(s, t, b)
    {
    }
  }

  lemma UnslotStep(s: State, pl: Place)
    requires Good(s) && CanUnslot(s, pl)
    ensures Good(Unslotted(s, pl)) && ViewsBut(s, Unslotted(s, pl), pl) && FewerShared(s, Unslotted(s, pl))
  {
    UnslotInv(s, pl);
    UnslotShared(s, pl);
    UnslotEntries(s, pl);
    SourcesAreKnown(s.slots, s.backings, s.procs);
    UnslotViews(s, pl, Unslotted(s, pl));
  }

  lemma UnslotEntries(s: State, pl: Place)
    requires CowsOk(s.slots, s.resident)
    ensures CowsOk(s.slots - {pl}, s.resident)
  {
  }

  // ---------- A process appears or disappears ----------

  /** A process without slots gets, changes or loses its descriptor. */
  lemma ProcessStep(s: State, pid: nat, p: Process)
    requires Good(s) && ProcOk(p)
    requires forall pl :: pl in s.slots ==> pl.pid != pid
    ensures Good(Resized(s, pid, p))
    ensures forall q: Place :: q.pid != pid ==> View(Resized(s, pid, p), q) == View(s, q)
  {
    ResizeSlots(s, pid, p);
    var t := Resized(s, pid, p);
    forall q: Place | q.pid != pid
      ensures View(t, q) == View(s, q)
    {
      OtherProcess(s, t, q, pid);
    }
  }

  lemma OtherProcess(s: State, t: State, q: Place, pid: nat)
    requires t == s.(procs := t.procs) && q.pid != pid
    requires q.pid in s.procs <==> q.pid in t.procs
    requires q.pid in s.procs ==> s.procs[q.pid] == t.procs[q.pid]
    ensures View(t, q) == View(s, q)
  {
    if q in s.slots {
      assert SourcePage(t, s.slots[q].source) == SourcePage(s, s.slots[q].source);
    }
    ViewKept(s, t, q);
  }

  lemma RemoveProcessStep(s: State, pid: nat)
    requires Good(s)
    requires forall pl :: pl in s.slots ==> pl.pid != pid
    ensures Good(s.(procs := s.procs - {pid}))
    ensures forall q: Place :: q.pid != pid ==> View(s.(procs := s.procs - {pid}), q) == View(s, q)
  {
    RemoveProcessSlots(s, pid);
    var t := s.(procs := s.procs - {pid});
    forall q: Place | q.pid != pid
      ensures View(t, q) == View(s, q)
    {
      OtherProcess(s, t, q, pid);
    }
  }

  lemma RemoveProcessSlots(s: State, pid: nat)
    requires SlotsOk(s.slots, s.backings, s.procs) && ProcsOk(s.procs)
    requires forall pl :: pl in s.slots ==> pl.pid != pid
    ensures SlotsOk(s.slots, s.backings, s.procs - {pid}) && ProcsOk(s.procs - {pid})
  {
    forall pl | pl in s.slots
      ensures SlotOk(pl, s.slots[pl], s.backings, s.procs - {pid})
    {
      assert SlotOk(pl, s.slots[pl], s.backings, s.procs);
    }
  }

  /** Without slots a process holds no frame and no page-table entry. */
  lemma NothingLeft(s: State, pid: nat)
    requires Good(s) && forall pl :: pl in s.slots ==> pl.pid != pid
    ensures forall q: Place :: q.pid == pid ==> SlotCell(q) !in s.resident && q !in s.pt
  {
    forall q: Place | q.pid == pid
      ensures SlotCell(q) !in s.resident && q !in s.pt
    {
      assert SlotCell(q) in s.resident ==> CellOk(SlotCell(q), s.slots, s.backings);
      assert q in s.pt ==> PteOk(q, s.pt[q], s.tables, s.slots, s.resident);
    }
  }
}

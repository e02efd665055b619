/**
 The elementary changes of the memory state. Every kernel routine is a sequence of
 these, and each of them keeps the invariant. The lemmas about single components of
 the invariant come first, one group per dictionary that changes.
 */
module Steps {
  import opened Bytes
  import opened Ledger
  import opened Machine

  type Refs = map<nat, nat>

  ghost predicate Fresh(s: State, f: nat) {
    f != 0 && f !in s.refs
  }

  ghost predicate Unheld(resident: Residents, f: nat) {
    forall c :: c in resident ==> resident[c] != f
  }

  // ---------- A cell takes a fresh frame ----------

  lemma FillConserves(resident: Residents, refs: Refs, frames: Frames, c: Cell, f: nat, content: Page)
    requires FramesConserved(resident, refs, frames) && c !in resident && f != 0 && f !in refs
    ensures FramesConserved(resident[c := f], refs[f := 1], frames[f := content])
    ensures Unheld(resident, f)
  {
    Put(resident, refs, c, f);
    assert forall d :: d in resident ==> resident[d] in refs;
  }

  lemma FillSeparates(resident: Residents, slots: Slots, c: Cell, f: nat)
    requires Separated(resident, slots) && SharedAgree(resident, slots)
    requires c !in resident && Unheld(resident, f)
    requires c.SlotCell? ==> Key(slots, c).None?
    ensures Separated(resident[c := f], slots)
    ensures SharedAgree(resident[c := f], slots)
  {
  }

  lemma FillHeld(frames: Frames, resident: Residents, c: Cell, f: nat, content: Page)
    requires c !in resident && Unheld(resident, f)
    ensures forall d :: d != c ==> Held(frames[f := content], resident[c := f], d) == Held(frames, resident, d)
    ensures Held(frames[f := content], resident[c := f], c) == Some(content)
  {
  }

  // ---------- A cell joins the holders of a frame ----------

  lemma JoinConserves(resident: Residents, refs: Refs, frames: Frames, c: Cell, f: nat)
    requires FramesConserved(resident, refs, frames) && c !in resident && f in refs
    ensures FramesConserved(resident[c := f], refs[f := refs[f] + 1], frames)
  {
    Put(resident, refs, c, f);
  }

  /** `c` may hold frame `f` beside its present holders. */
  ghost predicate CanJoin(resident: Residents, slots: Slots, c: Cell, f: nat) {
    && c !in resident && !Owns(slots, c)
    && (forall d :: d in resident && resident[d] == f ==> Key(slots, d) == Key(slots, c) && !Owns(slots, d))
    && (c.SlotCell? && Key(slots, c).Some? ==>
        var k := Key(slots, c).value;
        BackingCell(k.0, k.1) in resident && resident[BackingCell(k.0, k.1)] == f)
  }

  lemma JoinSeparates(resident: Residents, slots: Slots, c: Cell, f: nat)
    requires Separated(resident, slots) && SharedAgree(resident, slots)
    requires CanJoin(resident, slots, c, f)
    ensures Separated(resident[c := f], slots)
    ensures SharedAgree(resident[c := f], slots)
  {
  }

  lemma JoinHeld(frames: Frames, resident: Residents, c: Cell, f: nat)
    requires f in frames
    ensures forall d :: d != c ==> Held(frames, resident[c := f], d) == Held(frames, resident, d)
    ensures Held(frames, resident[c := f], c) == Some(frames[f])
  {
  }

  // ---------- A cell lets go of its frame ----------

  function Trimmed(frames: Frames, refs: Refs, f: nat): Frames
    requires f in refs
  {
    if refs[f] == 1 then frames - {f} else frames
  }

  lemma TakeConserves(resident: Residents, refs: Refs, frames: Frames, c: Cell)
    requires FramesConserved(resident, refs, frames) && c in resident
    ensures resident[c] in refs && refs[resident[c]] > 0
    ensures FramesConserved(resident - {c}, Lowered(refs, resident[c]), Trimmed(frames, refs, resident[c]))
  {
    Take(resident, refs, c);
  }

  lemma TakeHeld(resident: Residents, refs: Refs, frames: Frames, c: Cell)
    requires FramesConserved(resident, refs, frames) && c in resident && resident[c] in refs
    ensures forall d :: d != c ==>
      Held(Trimmed(frames, refs, resident[c]), resident - {c}, d) == Held(frames, resident, d)
  {
    forall d | d != c
      ensures Held(Trimmed(frames, refs, resident[c]), resident - {c}, d) == Held(frames, resident, d)
    {
      if refs[resident[c]] == 1 && d in resident {
        SoleHolder(resident, refs, c, d);
      }
    }
  }

  lemma TakeSeparates(resident: Residents, slots: Slots, c: Cell)
    requires Separated(resident, slots) && SharedAgree(resident, slots)
    requires c.BackingCell? ==> forall pl :: SlotCell(pl) in resident ==> Key(slots, SlotCell(pl)) != Key(slots, c)
    ensures Separated(resident - {c}, slots)
    ensures SharedAgree(resident - {c}, slots)
  {
    forall pl | SlotCell(pl) in resident - {c} && pl in slots && slots[pl].source.Shared?
      ensures BackingCell(slots[pl].source.backing, slots[pl].source.index) in resident - {c}
    {
      assert Key(slots, SlotCell(pl)) == Some((slots[pl].source.backing, slots[pl].source.index));
    }
  }

  lemma CacheKept(frames: Frames, resident: Residents, frames': Frames, resident': Residents)
    requires CacheSound(frames, resident)
    requires forall c :: c in resident' && c.CacheCell? ==>
      c in resident && Held(frames', resident', c) == Held(frames, resident, c)
    ensures CacheSound(frames', resident')
  {
    forall c | c in resident' && c.CacheCell?
      ensures CacheOk(c.image, c.off, Held(frames', resident', c))
    {
      assert CacheOk(c.image, c.off, Held(frames, resident, c));
    }
  }

  // ---------- Page-table entries ----------

  /** Entries depend only on the cells of slots. */
  lemma PtesIgnore(s: State, resident': Residents)
    requires PtesSound(s.pt, s.tables, s.slots, s.resident) && PtesComplete(s.pt, s.slots, s.resident)
    requires forall pl :: SlotCell(pl) in resident' <==> SlotCell(pl) in s.resident
    requires forall pl :: SlotCell(pl) in resident' ==> resident'[SlotCell(pl)] == s.resident[SlotCell(pl)]
    ensures PtesSound(s.pt, s.tables, s.slots, resident') && PtesComplete(s.pt, s.slots, resident')
  {
  }

  lemma PtesMap(s: State, pl: Place, f: nat, writable: bool)
    requires PtesSound(s.pt, s.tables, s.slots, s.resident) && PtesComplete(s.pt, s.slots, s.resident)
    requires pl in s.slots && SlotCell(pl) !in s.resident
    requires writable <==> s.slots[pl].prot.write && !s.slots[pl].cow
    ensures PtesSound(s.pt[pl := Pte(f, writable)], s.tables + {TableOf(pl)}, s.slots, s.resident[SlotCell(pl) := f])
    ensures PtesComplete(s.pt[pl := Pte(f, writable)], s.slots, s.resident[SlotCell(pl) := f])
  {
  }

  lemma PtesUnmap(s: State, pl: Place)
    requires PtesSound(s.pt, s.tables, s.slots, s.resident) && PtesComplete(s.pt, s.slots, s.resident)
    ensures PtesSound(s.pt - {pl}, s.tables, s.slots, s.resident - {SlotCell(pl)})
    ensures PtesComplete(s.pt - {pl}, s.slots, s.resident - {SlotCell(pl)})
  {
  }

  // ---------- Changes of one slot ----------

  /** A slot keeps its region and source. */
  ghost predicate SameShape(a: Slot, b: Slot) {
    a.region == b.region && a.source == b.source
  }

  lemma SlotChange(s: State, pl: Place, slot: Slot)
    requires pl in s.slots && SameShape(slot, s.slots[pl])
    requires AttachedAgree(s.attached, s.slots) && CellsOk(s.resident, s.slots, s.backings)
    requires SharedAgree(s.resident, s.slots)
    ensures AttachedAgree(s.attached, s.slots[pl := slot]) && CellsOk(s.resident, s.slots[pl := slot], s.backings)
    ensures SharedAgree(s.resident, s.slots[pl := slot])
    ensures forall c :: Key(s.slots[pl := slot], c) == Key(s.slots, c)
    ensures forall c :: c != SlotCell(pl) ==> Owns(s.slots[pl := slot], c) == Owns(s.slots, c)
  {
    forall c
      ensures CellOk(c, s.slots[pl := slot], s.backings) == CellOk(c, s.slots, s.backings)
    {
    }
  }

  lemma SlotChangeOk(s: State, pl: Place, slot: Slot)
    requires pl in s.slots && SameShape(slot, s.slots[pl])
    requires SlotsOk(s.slots, s.backings, s.procs) && SealsHold(s.slots, s.backings)
    requires slot.prot != s.slots[pl].prot && !slot.region.Mapping? ==>
      slot.prot != PROT_NONE && (slot.region.Heap? ==> slot.prot == Prot(true, true, false))
    requires slot.prot.write && !s.slots[pl].prot.write && slot.source.Shared? && slot.source.backing in s.backings
      ==> SealWrite !in s.backings[slot.source.backing].seals
    ensures SlotsOk(s.slots[pl := slot], s.backings, s.procs) && SealsHold(s.slots[pl := slot], s.backings)
  {
  }

  /** A slot that does not own, or whose frame nobody else holds, keeps the cells separated. */
  lemma SlotChangeSeparates(s: State, pl: Place, slot: Slot)
    requires pl in s.slots && SameShape(slot, s.slots[pl])
    requires Separated(s.resident, s.slots)
    requires forall c :: Key(s.slots[pl := slot], c) == Key(s.slots, c)
    requires forall c :: c != SlotCell(pl) ==> Owns(s.slots[pl := slot], c) == Owns(s.slots, c)
    requires OwnsSlot(slot) && !OwnsSlot(s.slots[pl]) && SlotCell(pl) in s.resident ==>
      forall d :: d in s.resident && d != SlotCell(pl) ==> s.resident[d] != s.resident[SlotCell(pl)]
    ensures Separated(s.resident, s.slots[pl := slot])
  {
  }

  // ---------- Views ----------

  /** What one place depends on. */
  lemma ViewKept(s: State, t: State, pl: Place)
    requires pl in s.slots <==> pl in t.slots
    requires pl in s.slots ==> SameShape(t.slots[pl], s.slots[pl])
    requires pl.pid in s.procs <==> pl.pid in t.procs
    requires pl.pid in s.procs ==> s.procs[pl.pid].program == t.procs[pl.pid].program
    requires Held(t.frames, t.resident, SlotCell(pl)) == Held(s.frames, s.resident, SlotCell(pl))
    requires pl in s.slots ==> SourcePage(t, t.slots[pl].source) == SourcePage(s, s.slots[pl].source)
    ensures View(t, pl) == View(s, pl)
  {
  }

  /** If only what `pl` holds changes, and to what was seen there, then nobody sees a change. */
  lemma ViewsKept(s: State, t: State, pl: Place)
    requires s.slots.Keys == t.slots.Keys && s.backings == t.backings && s.procs == t.procs
    requires forall q :: q in s.slots ==> SameShape(t.slots[q], s.slots[q])
    requires forall q :: q != pl ==> Held(t.frames, t.resident, SlotCell(q)) == Held(s.frames, s.resident, SlotCell(q))
    requires forall b, k :: BackingPage(t, b, k) == BackingPage(s, b, k)
    requires View(t, pl) == View(s, pl)
    ensures SameViews(s, t)
  {
    forall q
      ensures View(t, q) == View(s, q)
    {
      if q != pl {
        if q in s.slots {
          SourceKept(s, t, s.slots[q].source);
        }
        ViewKept(s, t, q);
      }
    }
  }

  lemma SourceKept(s: State, t: State, source: Source)
    requires s.backings == t.backings
    requires forall b, k :: BackingPage(t, b, k) == BackingPage(s, b, k)
    ensures SourcePage(t, source) == SourcePage(s, source)
  {
  }
}

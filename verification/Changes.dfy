/**
 Transitions that change protections, stored bytes, backings and processes.
 */
module Changes {
  import opened Bytes
  import opened Machine
  import opened Steps
  import opened Moves
  import opened Slotting

  // ---------- Protection of a mapping ----------

  datatype PteChange = Keep | Clear | Set(writable: bool)

  /** A mapping slot gets a new protection, and its page-table entry follows. */
  function Protected(s: State, pl: Place, prot: Prot, change: PteChange): State
    requires pl in s.slots && (change.Set? ==> SlotCell(pl) in s.resident)
  {
    s.(slots := s.slots[pl := s.slots[pl].(prot := prot)],
       pt := if change.Keep? then s.pt
             else if change.Clear? then s.pt - {pl}
             else s.pt[pl := Pte(s.resident[SlotCell(pl)], change.writable)],
       tables := if change.Set? then s.tables + {TableOf(pl)} else s.tables)
  }

  /** The page-table entry alone. */
  function Entered(s: State, pl: Place, change: PteChange): State
    requires change.Set? ==> SlotCell(pl) in s.resident
  {
    match change
    case Keep => s
    case Clear => s.(pt := s.pt - {pl})
    case Set(writable) => Mapped(s, pl, s.resident[SlotCell(pl)], writable)
  }

  lemma EnteredProtected(s: State, pl: Place, prot: Prot, change: PteChange)
    requires pl in s.slots && (change.Set? ==> SlotCell(pl) in s.resident)
    ensures var t := Entered(s, pl, change);
      pl in t.slots && t.(slots := t.slots[pl := t.slots[pl].(prot := prot)]) == Protected(s, pl, prot, change)
  {
  }

  ghost predicate CanProtect(s: State, pl: Place, prot: Prot, change: PteChange) {
    && pl in s.slots && s.slots[pl].region.Mapping?
    && (prot.write && !s.slots[pl].prot.write && s.slots[pl].source.Shared? && s.slots[pl].source.backing in s.backings
        ==> SealWrite !in s.backings[s.slots[pl].source.backing].seals)
    && match change
       case Keep => (SlotCell(pl) in s.resident ==> prot == PROT_NONE) && (pl in s.pt ==> !s.pt[pl].writable)
       case Clear => prot == PROT_NONE
       case Set(w) => SlotCell(pl) in s.resident && (w <==> prot.write && !s.slots[pl].cow)
  }

  lemma ProtectPtes(s: State, pl: Place, prot: Prot, change: PteChange)
    requires PtesSound(s.pt, s.tables, s.slots, s.resident) && PtesComplete(s.pt, s.slots, s.resident)
    requires CanProtect(s, pl, prot, change)
    ensures PtesSound(Protected(s, pl, prot, change).pt, Protected(s, pl, prot, change).tables,
                      s.slots[pl := s.slots[pl].(prot := prot)], s.resident)
    ensures PtesComplete(Protected(s, pl, prot, change).pt, s.slots[pl := s.slots[pl].(prot := prot)], s.resident)
  {
    var t := Protected(s, pl, prot, change);
    forall q | q in t.pt
      ensures PteOk(q, t.pt[q], t.tables, t.slots, t.resident)
    {
      assert q in s.pt ==> PteOk(q, s.pt[q], s.tables, s.slots, s.resident);
    }
  }

  lemma ProtectInv(s: State, pl: Place, prot: Prot, change: PteChange)
    requires Inv(s) && CanProtect(s, pl, prot, change)
    ensures Inv(Protected(s, pl, prot, change))
  {
    var slot := s.slots[pl].(prot := prot);
    SlotChange(s, pl, slot);
    SlotChangeOk(s, pl, slot);
    SlotChangeSeparates(s, pl, slot);
    ProtectPtes(s, pl, prot, change);
  }

  lemma ProtectViews(s: State, pl: Place, prot: Prot, change: PteChange, t: State)
    requires pl in s.slots && (change.Set? ==> SlotCell(pl) in s.resident)
    requires t == Protected(s, pl, prot, change)
    ensures SameViews(s, t)
  {
    assert t.frames == s.frames && t.resident == s.resident && t.backings == s.backings && t.procs == s.procs;
    assert t.slots == s.slots[pl := s.slots[pl].(prot := prot)];
    ViewKept0(s, t);
  }

  // ---------- Stored bytes ----------

  /** The bytes of one frame change. */
  function Stored(s: State, f: nat, content: Page): State {
    s.(frames := s.frames[f := content])
  }

  lemma StoreInv(s: State, f: nat, content: Page)
    requires Inv(s) && f in s.frames
    requires forall c :: c in s.resident && c.CacheCell? ==> s.resident[c] != f
    ensures Inv(Stored(s, f, content))
  {
    StoreCache(s.frames, s.resident, f, content);
  }

  lemma StoreCache(frames: Frames, resident: Residents, f: nat, content: Page)
    requires CacheSound(frames, resident) && f in frames
    requires forall c :: c in resident && c.CacheCell? ==> resident[c] != f
    ensures CacheSound(frames[f := content], resident)
  {
    CacheKept(frames, resident, frames[f := content], resident);
  }

  /** The cell of a shared page that a place stands for, or its own slot cell. */
  ghost function ByteCell(s: State, pl: Place): Cell {
    if pl in s.slots && s.slots[pl].source.Shared?
    then BackingCell(s.slots[pl].source.backing, s.slots[pl].source.index) else SlotCell(pl)
  }

  /** Whether the bytes that a place stands for are in the frame. */
  ghost predicate LivesIn(s: State, pl: Place, f: nat) {
    ByteCell(s, pl) in s.resident && s.resident[ByteCell(s, pl)] == f
  }

  /** A store changes the views of exactly those places whose bytes live in that frame. */
  lemma StoreViews(s: State, f: nat, content: Page, pl: Place)
    requires CellsOk(s.resident, s.slots, s.backings) && SharedAgree(s.resident, s.slots) && f in s.frames
    ensures pl in s.slots && !s.slots[pl].region.Tracked? && LivesIn(s, pl, f) ==>
      View(Stored(s, f, content), pl) == Some(content)
    ensures SlotCell(pl) in s.resident && s.resident[SlotCell(pl)] == f ==>
      View(Stored(s, f, content), pl) == Some(content)
    ensures !LivesIn(s, pl, f) ==> View(Stored(s, f, content), pl) == View(s, pl)
  {
    var t := Stored(s, f, content);
    var c := ByteCell(s, pl);
    assert SlotCell(pl) in s.resident ==> CellOk(SlotCell(pl), s.slots, s.backings);
    if !(c in s.resident && s.resident[c] == f) {
      if pl in s.slots {
        assert s.slots[pl].source.Shared? ==> Held(t.frames, t.resident, c) == Held(s.frames, s.resident, c);
        assert SourcePage(t, s.slots[pl].source) == SourcePage(s, s.slots[pl].source);
      }
      ViewKept(s, t, pl);
    }
  }

  // ---------- Backings and processes ----------

  /** Length or seals of a backing change. */
  function Retuned(s: State, b: nat, length: nat, seals: set<Seal>): State
    requires b in s.backings
  {
    s.(backings := s.backings[b := s.backings[b].(length := length, seals := seals)])
  }

  lemma RetuneInv(s: State, b: nat, length: nat, seals: set<Seal>)
    requires Inv(s) && b in s.backings && (seals == s.backings[b].seals || s.backings[b].memfd)
    requires length < s.backings[b].length ==>
      forall pl :: pl in s.slots && s.slots[pl].source.Shared? ==> s.slots[pl].source.backing != b
    requires SealWrite in seals && SealWrite !in s.backings[b].seals ==>
      forall pl :: pl in s.slots && s.slots[pl].source.Shared? && s.slots[pl].source.backing == b ==>
        !s.slots[pl].prot.write
    ensures Inv(Retuned(s, b, length, seals))
  {
    RetuneSlots(s, b, length, seals);
  }

  lemma RetuneSlots(s: State, b: nat, length: nat, seals: set<Seal>)
    requires SlotsOk(s.slots, s.backings, s.procs) && SealsHold(s.slots, s.backings) && b in s.backings
    requires CellsOk(s.resident, s.slots, s.backings) && BackingsConserved(s.attached, s.shares, s.backings)
    requires length < s.backings[b].length ==>
      forall pl :: pl in s.slots && s.slots[pl].source.Shared? ==> s.slots[pl].source.backing != b
    requires SealWrite in seals && SealWrite !in s.backings[b].seals ==>
      forall pl :: pl in s.slots && s.slots[pl].source.Shared? && s.slots[pl].source.backing == b ==>
        !s.slots[pl].prot.write
    ensures SlotsOk(s.slots, Retuned(s, b, length, seals).backings, s.procs)
    ensures SealsHold(s.slots, Retuned(s, b, length, seals).backings)
    ensures CellsOk(s.resident, s.slots, Retuned(s, b, length, seals).backings)
    ensures BackingsConserved(s.attached, s.shares, Retuned(s, b, length, seals).backings)
  {
    var t := Retuned(s, b, length, seals);
    forall pl | pl in s.slots
      ensures SlotOk(pl, s.slots[pl], t.backings, s.procs)
    {
      assert SlotOk(pl, s.slots[pl], s.backings, s.procs);
    }
    forall c | c in s.resident
      ensures CellOk(c, s.slots, t.backings)
    {
      assert CellOk(c, s.slots, s.backings);
    }
  }

  lemma RetuneViews(s: State, b: nat, length: nat, seals: set<Seal>)
    requires b in s.backings && SlotsOk(s.slots, s.backings, s.procs)
    ensures SameViews(s, Retuned(s, b, length, seals))
  {
    var t := Retuned(s, b, length, seals);
    forall pl
      ensures View(t, pl) == View(s, pl)
    {
      assert pl in s.slots ==> SlotOk(pl, s.slots[pl], s.backings, s.procs);
      PlaceKept(s, t, pl);
    }
  }

  /** The break or the stack bottom of a process moves. */
  function Resized(s: State, pid: nat, p: Process): State {
    s.(procs := s.procs[pid := p])
  }

  lemma ResizeInv(s: State, pid: nat, p: Process)
    requires Inv(s) && pid in s.procs && p.program == s.procs[pid].program && ProcOk(p)
    ensures Inv(Resized(s, pid, p)) && SameViews(s, Resized(s, pid, p))
  {
    ResizeSlots(s, pid, p);
    ResizeViews(s, pid, p);
  }

  lemma ResizeSlots(s: State, pid: nat, p: Process)
    requires SlotsOk(s.slots, s.backings, s.procs)
    ensures SlotsOk(s.slots, s.backings, s.procs[pid := p])
  {
    forall pl | pl in s.slots
      ensures SlotOk(pl, s.slots[pl], s.backings, s.procs[pid := p])
    {
      assert SlotOk(pl, s.slots[pl], s.backings, s.procs);
    }
  }

  lemma ResizeViews(s: State, pid: nat, p: Process)
    requires pid in s.procs && p.program == s.procs[pid].program
    ensures SameViews(s, Resized(s, pid, p))
  {
    var t := Resized(s, pid, p);
    forall pl
      ensures View(t, pl) == View(s, pl)
    {
      if pl in s.slots {
        assert SourcePage(t, s.slots[pl].source) == SourcePage(s, s.slots[pl].source);
      }
      ViewKept(s, t, pl);
    }
  }
}

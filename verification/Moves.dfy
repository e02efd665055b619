/**
 The transitions that kernel routines are made of, each with the proof that it keeps
 the invariant and a statement of what it does to the views of processes.
 */
module Moves {
  import opened Bytes
  import opened Ledger
  import opened Machine
  import opened Steps
  import Elf

  // ---------- First fault on a private slot ----------

  function Mapped(s: State, pl: Place, f: nat, writable: bool): State {
    s.(pt := s.pt[pl := Pte(f, writable)], tables := s.tables + {TableOf(pl)})
  }

  function Filled(s: State, c: Cell, f: nat, content: Page): State {
    s.(frames := s.frames[f := content], refs := s.refs[f := 1], resident := s.resident[c := f])
  }

  /** A fresh frame becomes resident in a private slot and is mapped. */
  function Committed(s: State, pl: Place, f: nat, content: Page, writable: bool): State {
    Mapped(Filled(s, SlotCell(pl), f, content), pl, f, writable)
  }

  /** A slot appears, or changes, together with its first frame. */
  function Planted(s: State, pl: Place, slot: Slot, f: nat, content: Page): State {
    Committed(s.(slots := s.slots[pl := slot]), pl, f, content, slot.prot.write)
  }

  ghost predicate CanCommit(s: State, pl: Place, f: nat, writable: bool) {
    && Fresh(s, f)
    && pl in s.slots && SlotCell(pl) !in s.resident && !s.slots[pl].source.Shared?
    && (writable <==> s.slots[pl].prot.write && !s.slots[pl].cow)
  }

  lemma CommitInv(s: State, pl: Place, f: nat, content: Page, writable: bool)
    requires Inv(s) && CanCommit(s, pl, f, writable)
    ensures Inv(Committed(s, pl, f, content, writable))
    ensures Unheld(s.resident, f)
  {
    FillConserves(s.resident, s.refs, s.frames, SlotCell(pl), f, content);
    FillSeparates(s.resident, s.slots, SlotCell(pl), f);
    FillHeld(s.frames, s.resident, SlotCell(pl), f, content);
    CacheKept(s.frames, s.resident, s.frames[f := content], s.resident[SlotCell(pl) := f]);
    PtesMap(s, pl, f, writable);
  }

  lemma CommitViews(s: State, pl: Place, f: nat, content: Page, writable: bool)
    requires SlotCell(pl) !in s.resident && Unheld(s.resident, f)
    requires pl in s.slots && View(s, pl) == Some(content)
    ensures SameViews(s, Committed(s, pl, f, content, writable))
  {
    FillHeld(s.frames, s.resident, SlotCell(pl), f, content);
    ViewsKept(s, Committed(s, pl, f, content, writable), pl);
  }

  // ---------- First touch of a page of a shared backing ----------

  lemma BackingFillInv(s: State, b: nat, k: nat, f: nat)
    requires Inv(s) && Fresh(s, f)
    requires b in s.backings && s.backings[b].shared && BackingCell(b, k) !in s.resident
    ensures Inv(Filled(s, BackingCell(b, k), f, ZeroPage()))
    ensures Unheld(s.resident, f)
  {
    var c := BackingCell(b, k);
    FillConserves(s.resident, s.refs, s.frames, c, f, ZeroPage());
    FillSeparates(s.resident, s.slots, c, f);
    FillHeld(s.frames, s.resident, c, f, ZeroPage());
    CacheKept(s.frames, s.resident, s.frames[f := ZeroPage()], s.resident[c := f]);
    PtesIgnore(s, s.resident[c := f]);
  }

  lemma BackingFillViews(s: State, b: nat, k: nat, f: nat)
    requires BackingCell(b, k) !in s.resident && Unheld(s.resident, f)
    ensures SameViews(s, Filled(s, BackingCell(b, k), f, ZeroPage()))
  {
    var c := BackingCell(b, k);
    var t := Filled(s, c, f, ZeroPage());
    FillHeld(s.frames, s.resident, c, f, ZeroPage());
    forall b', k'
      ensures BackingPage(t, b', k') == BackingPage(s, b', k')
    {
      var d := BackingCell(b', k');
      assert d != c ==> Held(t.frames, t.resident, d) == Held(s.frames, s.resident, d);
    }
    ViewKept0(s, t);
  }

  /** Slots hold the same and backings have the same bytes. */
  lemma ViewKept0(s: State, t: State)
    requires s.slots.Keys == t.slots.Keys && s.backings == t.backings && s.procs == t.procs
    requires forall q :: q in s.slots ==> SameShape(t.slots[q], s.slots[q])
    requires forall q :: Held(t.frames, t.resident, SlotCell(q)) == Held(s.frames, s.resident, SlotCell(q))
    requires forall b, k :: BackingPage(t, b, k) == BackingPage(s, b, k)
    ensures SameViews(s, t)
  {
    forall q
      ensures View(t, q) == View(s, q)
    {
      if q in s.slots {
        SourceKept(s, t, s.slots[q].source);
      }
      ViewKept(s, t, q);
    }
  }

  // ---------- A cell joins the holders of a frame ----------

  function Joined(s: State, c: Cell, f: nat): State
    requires f in s.refs
  {
    s.(refs := s.refs[f := s.refs[f] + 1], resident := s.resident[c := f])
  }

  /** A slot takes a further reference to a frame; it is mapped unless it is PROT_NONE. */
  function Attached(s: State, pl: Place, f: nat, mapped: bool, writable: bool): State
    requires f in s.refs
  {
    s.(refs := s.refs[f := s.refs[f] + 1], resident := s.resident[SlotCell(pl) := f],
       pt := if mapped then s.pt[pl := Pte(f, writable)] else s.pt,
       tables := if mapped then s.tables + {TableOf(pl)} else s.tables)
  }

  ghost predicate CanAttach(s: State, pl: Place, f: nat, mapped: bool, writable: bool) {
    && f in s.refs && pl in s.slots && CanJoin(s.resident, s.slots, SlotCell(pl), f)
    && (mapped ==> (writable <==> s.slots[pl].prot.write && !s.slots[pl].cow))
    && (!mapped ==> s.slots[pl].prot == PROT_NONE)
  }

  lemma AttachInv(s: State, pl: Place, f: nat, mapped: bool, writable: bool)
    requires Inv(s) && CanAttach(s, pl, f, mapped, writable)
    ensures Inv(Attached(s, pl, f, mapped, writable))
  {
    var c := SlotCell(pl);
    JoinConserves(s.resident, s.refs, s.frames, c, f);
    JoinSeparates(s.resident, s.slots, c, f);
    JoinHeld(s.frames, s.resident, c, f);
    CacheKept(s.frames, s.resident, s.frames, s.resident[c := f]);
    if mapped {
      PtesMap(s, pl, f, writable);
    } else {
      PtesJoinUnmapped(s, pl, f);
    }
  }

  lemma PtesJoinUnmapped(s: State, pl: Place, f: nat)
    requires PtesSound(s.pt, s.tables, s.slots, s.resident) && PtesComplete(s.pt, s.slots, s.resident)
    requires pl in s.slots && s.slots[pl].prot == PROT_NONE && SlotCell(pl) !in s.resident
    ensures PtesSound(s.pt, s.tables, s.slots, s.resident[SlotCell(pl) := f])
    ensures PtesComplete(s.pt, s.slots, s.resident[SlotCell(pl) := f])
  {
  }

  lemma AttachViews(s: State, pl: Place, f: nat, mapped: bool, writable: bool)
    requires f in s.refs && f in s.frames && pl in s.slots && View(s, pl) == Some(s.frames[f])
    ensures SameViews(s, Attached(s, pl, f, mapped, writable))
  {
    var t := Attached(s, pl, f, mapped, writable);
    assert t.frames == s.frames && t.resident == s.resident[SlotCell(pl) := f];
    JoinHeld(s.frames, s.resident, SlotCell(pl), f);
    ViewsKept(s, t, pl);
  }

  // ---------- The page cache takes or drops a reference ----------

  lemma CacheFillInv(s: State, im: Elf.Image, off: nat, f: nat)
    requires Inv(s) && f in s.refs && f in s.frames
    requires CanJoin(s.resident, s.slots, CacheCell(im, off), f)
    requires CacheOk(im, off, Some(s.frames[f]))
    ensures Inv(Joined(s, CacheCell(im, off), f))
  {
    var c := CacheCell(im, off);
    JoinConserves(s.resident, s.refs, s.frames, c, f);
    JoinSeparates(s.resident, s.slots, c, f);
    CacheJoins(s.frames, s.resident, c, f);
    PtesIgnore(s, s.resident[c := f]);
  }

  lemma CacheJoins(frames: Frames, resident: Residents, c: Cell, f: nat)
    requires CacheSound(frames, resident) && f in frames && c.CacheCell? && CacheOk(c.image, c.off, Some(frames[f]))
    ensures CacheSound(frames, resident[c := f])
  {
    JoinHeld(frames, resident, c, f);
    forall d | d in resident[c := f] && d.CacheCell?
      ensures CacheOk(d.image, d.off, Held(frames, resident[c := f], d))
    {
      if d != c {
        assert CacheOk(d.image, d.off, Held(frames, resident, d));
      }
    }
  }

  lemma CacheFillViews(s: State, c: Cell, f: nat)
    requires c.CacheCell? && f in s.refs && f in s.frames
    ensures SameViews(s, Joined(s, c, f))
  {
    JoinHeld(s.frames, s.resident, c, f);
    ViewKept0(s, Joined(s, c, f));
  }

  // ---------- A cell lets go of its frame ----------

  function Released(s: State, c: Cell): State
    requires c in s.resident && s.resident[c] in s.refs && s.refs[s.resident[c]] > 0
  {
    var f := s.resident[c];
    s.(frames := Trimmed(s.frames, s.refs, f), refs := Lowered(s.refs, f), resident := s.resident - {c})
  }

  ghost predicate CanRelease(s: State, c: Cell) {
    && c in s.resident && s.resident[c] in s.refs && s.refs[s.resident[c]] > 0
    && (c.BackingCell? ==> forall pl :: SlotCell(pl) in s.resident ==> Key(s.slots, SlotCell(pl)) != Key(s.slots, c))
  }

  lemma ReleaseHeld(s: State, c: Cell)
    requires FramesConserved(s.resident, s.refs, s.frames) && CanRelease(s, c)
    ensures forall d :: d != c ==>
      Held(Released(s, c).frames, Released(s, c).resident, d) == Held(s.frames, s.resident, d)
  {
    TakeHeld(s.resident, s.refs, s.frames, c);
  }

  lemma ReleaseCommon(s: State, c: Cell)
    requires Inv(s) && CanRelease(s, c)
    ensures FramesConserved(Released(s, c).resident, Released(s, c).refs, Released(s, c).frames)
    ensures Separated(Released(s, c).resident, s.slots) && SharedAgree(Released(s, c).resident, s.slots)
    ensures CacheSound(Released(s, c).frames, Released(s, c).resident)
    ensures CellsOk(Released(s, c).resident, s.slots, s.backings)
  {
    TakeConserves(s.resident, s.refs, s.frames, c);
    TakeSeparates(s.resident, s.slots, c);
    ReleaseHeld(s, c);
    CacheKept(s.frames, s.resident, Released(s, c).frames, Released(s, c).resident);
  }

  /** A backing or the cache drops its reference. */
  lemma ReleaseInv(s: State, c: Cell)
    requires Inv(s) && CanRelease(s, c) && !c.SlotCell?
    ensures Inv(Released(s, c))
  {
    ReleaseCommon(s, c);
    PtesIgnore(s, Released(s, c).resident);
  }

  lemma CacheReleaseViews(s: State, c: Cell)
    requires FramesConserved(s.resident, s.refs, s.frames) && CanRelease(s, c) && c.CacheCell?
    ensures SameViews(s, Released(s, c))
  {
    ReleaseHeld(s, c);
    ViewKept0(s, Released(s, c));
  }

  /** A slot gives its frame back and is unmapped. */
  function Evicted(s: State, pl: Place): State
    requires SlotCell(pl) in s.resident && s.resident[SlotCell(pl)] in s.refs && s.refs[s.resident[SlotCell(pl)]] > 0
  {
    Released(s, SlotCell(pl)).(pt := s.pt - {pl})
  }

  lemma EvictInv(s: State, pl: Place)
    requires Inv(s) && CanRelease(s, SlotCell(pl))
    ensures Inv(Evicted(s, pl))
  {
    ReleaseCommon(s, SlotCell(pl));
    PtesUnmap(s, pl);
  }

  lemma CellReleasable(s: State, c: Cell)
    requires Inv(s) && c in s.resident && !c.BackingCell?
    ensures CanRelease(s, c)
  {
    TakeConserves(s.resident, s.refs, s.frames, c);
  }

  // ---------- Copy on write ----------

  function Recowed(s: State, pl: Place, cow: bool): State
    requires pl in s.slots
  {
    s.(slots := s.slots[pl := s.slots[pl].(cow := cow)])
  }

  lemma RecowCommon(s: State, pl: Place, cow: bool)
    requires Inv(s) && pl in s.slots
    requires !cow && !s.slots[pl].source.Shared? && SlotCell(pl) in s.resident ==>
      forall d :: d in s.resident && d != SlotCell(pl) ==> s.resident[d] != s.resident[SlotCell(pl)]
    ensures var slots := Recowed(s, pl, cow).slots;
      AttachedAgree(s.attached, slots) && CellsOk(s.resident, slots, s.backings) && SharedAgree(s.resident, slots)
      && SlotsOk(slots, s.backings, s.procs) && SealsHold(slots, s.backings) && Separated(s.resident, slots)
  {
    var slot := s.slots[pl].(cow := cow);
    SlotChange(s, pl, slot);
    SlotChangeOk(s, pl, slot);
    SlotChangeSeparates(s, pl, slot);
  }

  lemma RecowViews(s: State, t: State, pl: Place, cow: bool)
    requires pl in s.slots && t == Recowed(s, pl, cow).(pt := t.pt, tables := t.tables)
    ensures SameViews(s, t)
  {
    ViewKept0(s, t);
  }

  /** The slot becomes copy-on-write and its page read-only. */
  function Demoted(s: State, pl: Place): State
    requires pl in s.slots
  {
    Recowed(s, pl, true).(pt := if pl in s.pt then s.pt[pl := Pte(s.pt[pl].frame, false)] else s.pt)
  }

  lemma DemoteInv(s: State, pl: Place)
    requires Inv(s) && pl in s.slots
    ensures Inv(Demoted(s, pl))
  {
    RecowCommon(s, pl, true);
    DemotePtes(s, pl);
  }

  lemma DemotePtes(s: State, pl: Place)
    requires pl in s.slots
    requires PtesSound(s.pt, s.tables, s.slots, s.resident) && PtesComplete(s.pt, s.slots, s.resident)
    ensures PtesSound(Demoted(s, pl).pt, s.tables, Demoted(s, pl).slots, s.resident)
    ensures PtesComplete(Demoted(s, pl).pt, Demoted(s, pl).slots, s.resident)
  {
  }

  /** The only holder of a copy-on-write frame gets it back writable. */
  function Promoted(s: State, pl: Place): State
    requires pl in s.slots && pl in s.pt
  {
    Recowed(s, pl, false).(pt := s.pt[pl := Pte(s.pt[pl].frame, true)])
  }

  ghost predicate CanPromote(s: State, pl: Place) {
    && pl in s.slots && pl in s.pt && s.slots[pl].prot.write
    && SlotCell(pl) in s.resident && s.resident[SlotCell(pl)] in s.refs && s.refs[s.resident[SlotCell(pl)]] == 1
  }

  lemma PromoteInv(s: State, pl: Place)
    requires Inv(s) && CanPromote(s, pl)
    ensures Inv(Promoted(s, pl))
  {
    forall d | d in s.resident && d != SlotCell(pl)
      ensures s.resident[d] != s.resident[SlotCell(pl)]
    {
      SoleHolder(s.resident, s.refs, SlotCell(pl), d);
    }
    RecowCommon(s, pl, false);
    PromotePtes(s, pl);
  }

  lemma PromotePtes(s: State, pl: Place)
    requires pl in s.slots && pl in s.pt && s.slots[pl].prot.write
    requires PtesSound(s.pt, s.tables, s.slots, s.resident) && PtesComplete(s.pt, s.slots, s.resident)
    ensures PtesSound(Promoted(s, pl).pt, s.tables, Promoted(s, pl).slots, s.resident)
    ensures PtesComplete(Promoted(s, pl).pt, Promoted(s, pl).slots, s.resident)
  {
  }

  /** A shared copy-on-write frame is replaced by a fresh private copy. */
  function Copied(s: State, pl: Place, f: nat): State
    requires pl in s.slots && SlotCell(pl) in s.resident && s.resident[SlotCell(pl)] in s.refs
    requires s.refs[s.resident[SlotCell(pl)]] > 0 && s.resident[SlotCell(pl)] in s.frames
  {
    Committed(Recowed(Evicted(s, pl), pl, false), pl, f, s.frames[s.resident[SlotCell(pl)]], true)
  }

  ghost predicate CanCopy(s: State, pl: Place, f: nat) {
    && Fresh(s, f)
    && pl in s.slots && s.slots[pl].prot.write && !s.slots[pl].source.Shared?
    && SlotCell(pl) in s.resident && s.resident[SlotCell(pl)] in s.refs && s.resident[SlotCell(pl)] in s.frames
    && s.refs[s.resident[SlotCell(pl)]] > 0
  }

  lemma CopyInv(s: State, pl: Place, f: nat)
    requires Inv(s) && CanCopy(s, pl, f)
    ensures Inv(Copied(s, pl, f))
  {
    CellReleasable(s, SlotCell(pl));
    EvictInv(s, pl);
    var t := Evicted(s, pl);
    RecowUnmapped(t, pl);
    CommitInv(Recowed(t, pl, false), pl, f, s.frames[s.resident[SlotCell(pl)]], true);
  }

  lemma RecowUnmapped(s: State, pl: Place)
    requires Inv(s) && pl in s.slots && SlotCell(pl) !in s.resident
    ensures Inv(Recowed(s, pl, false))
  {
    RecowCommon(s, pl, false);
  }

  lemma CopyViews(s: State, pl: Place, f: nat)
    requires FramesConserved(s.resident, s.refs, s.frames) && CanCopy(s, pl, f)
    ensures SameViews(s, Copied(s, pl, f))
  {
    var c := SlotCell(pl);
    var e := Released(s, c);
    TakeHeld(s.resident, s.refs, s.frames, c);
    CopyUnheld(s, pl, f);
    FillHeld(e.frames, e.resident, c, f, s.frames[s.resident[c]]);
    ViewsKept(s, Copied(s, pl, f), pl);
  }

  lemma CopyUnheld(s: State, pl: Place, f: nat)
    requires FramesConserved(s.resident, s.refs, s.frames) && f !in s.refs
    ensures Unheld(s.resident - {SlotCell(pl)}, f)
  {
    assert forall d :: d in s.resident ==> s.resident[d] in s.refs;
  }
}

/**
 Changing the protection of mappings, with the memfd seals that limit it.
 */
module Protecting {
  import opened Bytes
  import opened Ledger
  import opened Machine
  import opened Steps
  import opened Moves
  import opened Changes
  import opened Faults
  import opened Teardown
  import opened Reserving
  import opened Forking

  datatype Outcome = Done | Einval | Enomem | Eacces | Eperm | Ebusy | Enospc | Ebadf

  /** What `mprotect` does to the page-table entry of one slot. */
  ghost function Choice(s: State, pl: Place, prot: Prot): PteChange
    requires pl in s.slots
  {
    if SlotCell(pl) !in s.resident then Keep
    else if prot == PROT_NONE then if s.slots[pl].prot == PROT_NONE then Keep else Clear
    else Set(prot.write && (s.slots[pl].source.Shared? || !s.slots[pl].cow))
  }

  /** The check that `mprotect` makes before it grants write access. */
  predicate MayWrite(slot: Slot, backings: Backings) {
    slot.source.Anonymous? || slot.source.backing !in backings ||
    var b := backings[slot.source.backing];
    !b.immutable &&
    (b.memfd ==> SealWrite !in b.seals && (SealFutureWrite in b.seals ==> slot.prot.write))
  }

  ghost predicate MayWriteAll(s: State, range: set<Place>) {
    forall pl :: pl in range && pl in s.slots ==> MayWrite(s.slots[pl], s.backings)
  }

  lemma ChoiceOk(s: State, pl: Place, prot: Prot, change: PteChange)
    requires Good(s) && pl in s.slots && s.slots[pl].region.Mapping? && change == Choice(s, pl, prot)
    requires prot.write ==> MayWrite(s.slots[pl], s.backings)
    ensures CanProtect(s, pl, prot, change)
  {
    assert SlotOk(pl, s.slots[pl], s.backings, s.procs);
    assert pl in s.pt ==> PteOk(pl, s.pt[pl], s.tables, s.slots, s.resident);
    assert s.slots[pl].cow ==> !s.slots[pl].source.Shared?;
  }

  lemma ProtectEntries(s: State, pl: Place, prot: Prot)
    requires CowsOk(s.slots, s.resident) && pl in s.slots && s.slots[pl].region.Mapping?
    ensures CowsOk(s.slots[pl := s.slots[pl].(prot := prot)], s.resident)
  {
  }

  lemma ProtectStep(s: State, pl: Place, prot: Prot, change: PteChange, t: State)
    requires Good(s) && pl in s.slots && s.slots[pl].region.Mapping? && change == Choice(s, pl, prot)
    requires prot.write ==> MayWrite(s.slots[pl], s.backings)
    requires CanProtect(s, pl, prot, change) && t == Protected(s, pl, prot, change)
    ensures Good(t) && SameViews(s, t)
  {
    ProtectInv(s, pl, prot, change);
    ProtectEntries(s, pl, prot);
    ProtectFields(s, pl, prot, change, t);
    ProtectViews(s, pl, prot, change, t);
  }

  lemma ProtectFields(s: State, pl: Place, prot: Prot, change: PteChange, t: State)
    requires pl in s.slots && (change.Set? ==> SlotCell(pl) in s.resident) && t == Protected(s, pl, prot, change)
    ensures t == s.(slots := s.slots[pl := s.slots[pl].(prot := prot)], pt := t.pt, tables := t.tables)
  {
  }

  lemma ProtectFacts(s: State, pl: Place)
    requires Good(s) && pl in s.slots && SlotCell(pl) in s.resident && s.slots[pl].prot != PROT_NONE
    ensures pl in s.pt && TableOf(pl) in s.tables
  {
    assert pl in s.pt;
    assert PteOk(pl, s.pt[pl], s.tables, s.slots, s.resident);
  }

  /** The slots in `done` have the new protection and nothing else about any slot has changed. */
  ghost predicate Reprotected(s: Slots, t: Slots, done: set<Place>, prot: Prot) {
    && t.Keys == s.Keys
    && forall q :: q in s ==> t[q] == if q in done then s[q].(prot := prot) else s[q]
  }

  lemma ReprotectedMore(s: Slots, t: Slots, done: set<Place>, prot: Prot, pl: Place)
    requires Reprotected(s, t, done, prot) && pl in s && pl !in done
    ensures Reprotected(s, t[pl := t[pl].(prot := prot)], done + {pl}, prot)
  {
  }

  lemma ReprotectedSharing(s: Slots, t: Slots, done: set<Place>, prot: Prot)
    requires Reprotected(s, t, done, prot)
    ensures SameSharing(s, t)
  {
  }

  predicate Offender(s: State, pl: Place) {
    pl in s.slots && !MayWrite(s.slots[pl], s.backings)
  }

  /** Some page of the range may not be written, and the error says why. */
  ghost predicate Offends(s: State, range: set<Place>, r: Outcome) {
    exists pl :: pl in range && Offender(s, pl) &&
      r == if s.backings[s.slots[pl].source.backing].immutable then Eacces else Eperm
  }

  /** An inaccessible page that a fault has made readable again; it cannot be mapped a second time. */
  ghost predicate Reopened(s: State, pl: Place) {
    pl in s.slots && s.slots[pl].prot == PROT_NONE && pl in s.pt
  }

  ghost predicate AnyReopened(s: State, range: set<Place>) {
    exists pl :: pl in range && Reopened(s, pl)
  }

  /** Only the entry of one place may have come or gone. */
  ghost predicate OnlyEntry(pt: map<Place, Pte>, pt': map<Place, Pte>, pl: Place) {
    forall q :: q != pl ==> (q in pt' <==> q in pt)
  }

  ghost predicate EntriesOutside(pt: map<Place, Pte>, pt': map<Place, Pte>, done: set<Place>) {
    forall q :: q !in done ==> (q in pt' <==> q in pt)
  }

  lemma EntriesMore(a: map<Place, Pte>, b: map<Place, Pte>, c: map<Place, Pte>, done: set<Place>, pl: Place)
    requires EntriesOutside(a, b, done) && OnlyEntry(b, c, pl)
    ensures EntriesOutside(a, c, done + {pl})
  {
  }

  lemma ProtectedEntry(s: State, pl: Place, prot: Prot, change: PteChange, t: State)
    requires pl in s.slots && (change.Set? ==> SlotCell(pl) in s.resident) && t == Protected(s, pl, prot, change)
    ensures OnlyEntry(s.pt, t.pt, pl)
  {
  }

  lemma ReopenedBefore(s: State, t: State, range: set<Place>, done: set<Place>, prot: Prot, pl: Place)
    requires Reprotected(s.slots, t.slots, done, prot) && EntriesOutside(s.pt, t.pt, done) && pl in range - done
    ensures Reopened(t, pl) <==> Reopened(s, pl)
    ensures Reopened(s, pl) ==> AnyReopened(s, range)
  {
  }

  lemma ReopenedMore(s: State, done: set<Place>, pl: Place)
    requires !Reopened(s, pl)
    ensures AnyReopened(s, done + {pl}) ==> AnyReopened(s, done)
  {
  }

  lemma ReopenedFacts(s: State, pl: Place)
    requires Good(s)
    ensures Reopened(s, pl) ==> SlotCell(pl) in s.resident
  {
    assert pl in s.pt ==> PteOk(pl, s.pt[pl], s.tables, s.slots, s.resident);
  }

  /** The slots in `done` have the new protection, and nothing else that anyone sees has changed. */
  ghost predicate ProtectedSome(s: State, t: State, range: set<Place>, done: set<Place>, prot: Prot) {
    && done <= range && SameViews(s, t) && SameShared(s, t) && t.procs == s.procs
    && Reprotected(s.slots, t.slots, done, prot) && SameSharing(s.slots, t.slots) && EntriesOutside(s.pt, t.pt, done)
    && (prot != PROT_NONE ==> !AnyReopened(s, done))
  }

  lemma ProtectedMore(s: State, t: State, u: State, range: set<Place>, done: set<Place>, pl: Place, prot: Prot)
    requires ProtectedSome(s, t, range, done, prot) && pl in range - done && pl in s.slots
    requires SameViews(t, u) && SameShared(t, u) && u.procs == t.procs && OnlyEntry(t.pt, u.pt, pl)
    requires u.slots == t.slots[pl := t.slots[pl].(prot := prot)] && (prot != PROT_NONE ==> !Reopened(s, pl))
    ensures ProtectedSome(s, u, range, done + {pl}, prot)
  {
    EntriesMore(s.pt, t.pt, u.pt, done, pl);
    SameViewsTwice(s, t, u);
    SameSharedTwice(s, t, u);
    ReprotectedMore(s.slots, t.slots, done, prot, pl);
    ReprotectedSharing(s.slots, u.slots, done + {pl}, prot);
    if prot != PROT_NONE {
      ReopenedMore(s, done, pl);
    }
  }

  /** Touching a committed page without permissions reopens it. */
  lemma TouchReopens(s: State, pl: Place)
    requires Good(s) && pl in s.slots && s.slots[pl].prot == PROT_NONE && SlotCell(pl) in s.resident && pl !in s.pt
    ensures var t := Mapped(s, pl, s.resident[SlotCell(pl)], false); Invisible(s, t) && Reopened(t, pl)
  {
    RestoreStep(s, pl);
  }

  /** One process with one inaccessible page that a fault has reopened. */
  lemma ReopenedPage(s: State, pl: Place)
    requires pl == Place(1, MMAP_START)
    requires s == State(map[1 := ZeroPage()], map[1 := 1], map[SlotCell(pl) := 1],
                        map[pl := Slot(Mapping, PROT_NONE, false, Anonymous)], map[pl := Pte(1, false)], {TableOf(pl)},
                        map[], map[], map[], map[1 := Process(NoProgram, STACK_TOP, HEAP_START)])
    ensures Good(s) && Reopened(s, pl)
  {
    assert Holders(s.resident, 1) == {SlotCell(pl)};
    assert ProcOk(s.procs[1]);
    assert SlotOk(pl, s.slots[pl], s.backings, s.procs);
  }

  lemma ProtectWhole(s: State, pl: Place, prot: Prot, t: State)
    requires Good(s) && pl in s.slots && s.slots[pl].region.Mapping?
    requires prot.write ==> MayWrite(s.slots[pl], s.backings)
    requires t == Protected(s, pl, prot, Choice(s, pl, prot))
    ensures Good(t) && SameViews(s, t) && SameShared(s, t) && t.procs == s.procs && OnlyEntry(s.pt, t.pt, pl)
    ensures t.slots == s.slots[pl := s.slots[pl].(prot := prot)]
  {
    var change := Choice(s, pl, prot);
    ChoiceOk(s, pl, prot, change);
    ProtectStep(s, pl, prot, change, t);
    ProtectFields(s, pl, prot, change, t);
    ProtectedEntry(s, pl, prot, change, t);
    SharedUntouched(s, t);
  }
}

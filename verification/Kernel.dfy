/**
 The routines of xscore/kernel/process.c that change memory: page faults, copy on
 write, demand loading, fork, mmap, munmap, mprotect, brk and process teardown, with
 the frame and page-table primitives they are built on.
 */
module Kernels {
  import opened Bytes
  import opened Ledger
  import opened Machine
  import opened Steps
  import opened Moves
  import opened Slotting
  import opened Changes
  import opened Faults
  import opened Access
  import opened Teardown
  import opened Reserving
  import opened Forking
  import opened Protecting
  import opened Sharing
  import opened Runs
  import Elf

  // ---------- Undoing a reference that was just taken ----------

  lemma UndoAllocate(s: State, f: nat, content: Page)
    requires f !in s.refs && s.frames.Keys == s.refs.Keys
    ensures Lowered(s.refs[f := 1], f) == s.refs
    ensures Trimmed(s.frames[f := content], s.refs[f := 1], f) == s.frames
  {
  }

  lemma UndoCell(s: State, c: Cell, f: nat)
    requires c !in s.resident
    ensures s.resident[c := f] - {c} == s.resident
  {
  }

  lemma UndoShare(s: State, f: nat)
    requires f in s.refs && s.refs[f] > 0
    ensures Lowered(s.refs[f := s.refs[f] + 1], f) == s.refs
    ensures Trimmed(s.frames, s.refs[f := s.refs[f] + 1], f) == s.frames
  {
  }

  lemma UndoMap(s: State, pl: Place, f: nat, writable: bool)
    requires pl !in s.pt
    ensures s.pt[pl := Pte(f, writable)] - {pl} == s.pt
  {
  }

  lemma GoneMore(slots: Slots, done: set<Place>, pl: Place)
    ensures slots - done - {pl} == slots - (done + {pl})
  {
  }

  lemma GoneChanged(slots: Slots, pl: Place, slot: Slot)
    ensures slots[pl := slot] - {pl} == slots - {pl}
  {
  }

  const ADDRESS_MAX: nat := 0xFFFF_FFFF_FFFF_FFFF

  function RoundUp(n: nat): nat {
    (n + PAGE - 1) / PAGE * PAGE
  }

  /** The page below the stack's bottom, when it is not the one that is present already. */
  lemma BelowBottom(s: State, pid: nat, page: nat, next: int)
    requires Good(s) && pid in s.procs && STACK_LIMIT <= page < s.procs[pid].stackBottom && page % PAGE == 0
    requires next == s.procs[pid].stackBottom - PAGE
    ensures next >= 0 && page <= next && InStack(next) && next % PAGE == 0
    ensures Place(pid, page) in s.pt && Place(pid, next) !in s.pt ==> page < next
  {
    assert ProcOk(s.procs[pid]);
    OnePageBelow(s.procs[pid].stackBottom, page, next);
    assert page == next ==> Place(pid, page) == Place(pid, next);
  }

  lemma OnePageBelow(bottom: nat, page: nat, next: int)
    requires bottom % PAGE == 0 && page % PAGE == 0 && STACK_LIMIT <= page < bottom <= STACK_TOP
    requires next == bottom - PAGE
    ensures page <= next && InStack(next) && next % PAGE == 0
  {
  }

  lemma PageStillMapped(s: State, t: State, pl: Place)
    requires PtGrows(s.pt, t.pt) && pl in s.pt
    ensures pl in t.pt
  {
  }

  /** The mapping slots of a process in a range of addresses. */
  function MappingsIn(s: State, pid: nat, from: nat, to: nat): set<Place> {
    set pl | pl in s.slots && pl.pid == pid && s.slots[pl].region.Mapping? && from <= pl.page < to
  }

  /** A mapping of the process that starts in the range, which is not rounded. */
  ghost predicate MappedIn(s: State, pid: nat, address: nat, length: nat, pl: Place) {
    pl in s.slots && pl.pid == pid && s.slots[pl].region.Mapping? && address <= pl.page < address + length
  }

  lemma MappingsAre(s: State, pid: nat, address: nat, length: nat)
    requires Good(s) && address % PAGE == 0
    ensures forall pl ::
      pl in MappingsIn(s, pid, address, address + RoundUp(length)) <==> MappedIn(s, pid, address, length, pl)
  {
    forall pl | pl in s.slots
      ensures address <= pl.page < address + RoundUp(length) <==> address <= pl.page < address + length
    {
      assert SlotOk(pl, s.slots[pl], s.backings, s.procs);
      RoundedPage(address, length, pl.page);
    }
  }

  lemma RoundedPage(address: nat, length: nat, page: nat)
    requires address % PAGE == 0 && page % PAGE == 0
    ensures page < address + RoundUp(length) <==> page < address + length
  {
    var n, k := address / PAGE, page / PAGE;
    assert address == n * PAGE && page == k * PAGE;
  }

  /** A backing that forbids writing: of an unchangeable file, or sealed, for the future or at once. */
  ghost predicate Frozen(s: State, pl: Place) {
    pl in s.slots && !s.slots[pl].source.Anonymous? && s.slots[pl].source.backing in s.backings &&
    var b := s.backings[s.slots[pl].source.backing];
    b.immutable || (b.memfd && SealWrite in b.seals)
    || (b.memfd && SealFutureWrite in b.seals && !s.slots[pl].prot.write)
  }

  /** A page of an unchangeable file. */
  ghost predicate Unchangeable(s: State, pl: Place) {
    && pl in s.slots && !s.slots[pl].source.Anonymous? && s.slots[pl].source.backing in s.backings
    && s.backings[s.slots[pl].source.backing].immutable
  }

  lemma FrozenPages(s: State, pid: nat, address: nat, length: nat)
    requires Good(s) && address % PAGE == 0
    ensures !MayWriteAll(s, MappingsIn(s, pid, address, address + RoundUp(length))) <==>
      exists pl :: MappedIn(s, pid, address, length, pl) && Frozen(s, pl)
  {
    MappingsAre(s, pid, address, length);
    forall pl | pl in s.slots
      ensures Frozen(s, pl) <==> !MayWrite(s.slots[pl], s.backings)
    {
    }
  }

  /** The mappings in the range can be read if any access is allowed, and written exactly if that is. */
  ghost predicate ProtectedAs(t: State, pid: nat, address: nat, length: nat, prot: Prot) {
    pid in t.procs && t.procs[pid].stackBottom != 0 ==>
      forall pl :: MappedIn(t, pid, address, length, pl) ==>
        && (prot != PROT_NONE ==> Accessible(t, pid, pl.page, false))
        && (Accessible(t, pid, pl.page, true) <==> prot.write)
  }

  lemma ProtectGrants(s: State, t: State, pid: nat, address: nat, length: nat, prot: Prot)
    requires Good(s) && Good(t) && address % PAGE == 0
    requires Reprotected(s.slots, t.slots, MappingsIn(s, pid, address, address + RoundUp(length)), prot)
    ensures ProtectedAs(t, pid, address, length, prot)
  {
    MappingsAre(s, pid, address, length);
    if pid in t.procs && t.procs[pid].stackBottom != 0 {
      forall pl | MappedIn(t, pid, address, length, pl)
        ensures prot != PROT_NONE ==> Accessible(t, pid, pl.page, false)
        ensures Accessible(t, pid, pl.page, true) <==> prot.write
      {
        assert SlotOk(pl, t.slots[pl], t.backings, t.procs);
        assert MappedIn(s, pid, address, length, pl);
        AccessIs(t, pid, pl.page);
      }
    }
  }

  /** Every page that starts in the range, which is not rounded, is mapped. */
  ghost predicate AllMapped(s: State, pid: nat, address: nat, length: nat) {
    forall page: nat :: page % PAGE == 0 && address <= page < address + length ==>
      MappedIn(s, pid, address, length, Place(pid, page))
  }

  lemma CoveredIs(s: State, pid: nat, address: nat, length: nat)
    requires Good(s) && address % PAGE == 0
    ensures Covered(s, pid, address, address + RoundUp(length)) <==> AllMapped(s, pid, address, length)
  {
    MappingsAre(s, pid, address, length);
    if Covered(s, pid, address, address + RoundUp(length)) {
      forall page: nat | page % PAGE == 0 && address <= page < address + length
        ensures MappedIn(s, pid, address, length, Place(pid, page))
      {
        var k := (page - address) / PAGE;
        assert page == address + k * PAGE;
        RoundedPage(address, length, page);
        assert Place(pid, address + k * PAGE) in MappingsIn(s, pid, address, address + RoundUp(length));
      }
    }
    if AllMapped(s, pid, address, length) {
      forall k: nat | address + k * PAGE < address + RoundUp(length)
        ensures Place(pid, address + k * PAGE) in MappingsIn(s, pid, address, address + RoundUp(length))
      {
        RoundedPage(address, length, address + k * PAGE);
        assert MappedIn(s, pid, address, length, Place(pid, address + k * PAGE));
      }
    }
  }

  /** What `mprotect` leaves behind for each of its answers. */
  ghost predicate ProtectOutcome(s: State, t: State, pid: nat, address: nat, length: nat, prot: Prot, r: Outcome,
      starved: bool)
  {
    var range := MappingsIn(s, pid, address, address + RoundUp(length));
    var covered := Covered(s, pid, address, address + RoundUp(length));
    && SameViews(s, t) && SameShared(s, t) && t.procs == s.procs
    && (r == Einval <==> !Kernel.RangeOk(address, length))
    && (r in {Einval, Eacces, Eperm} ==> t == s)
    && (r in {Eacces, Eperm} ==> Offends(t, range, r))
    && (r == Done ==> Reprotected(s.slots, t.slots, range, prot))
    && (r == Enomem ==> exists done | done <= range :: Reprotected(s.slots, t.slots, done, prot))
    && (r != Einval && covered ==> (r in {Eacces, Eperm} <==> prot.write && !MayWriteAll(s, range)))
    && (r != Einval && !covered ==> r == Enomem && t == s)
    && (r == Enomem && !starved && covered ==> prot != PROT_NONE && AnyReopened(s, range))
    && (prot != PROT_NONE && AnyReopened(s, range) ==> r != Done)
    && r in {Done, Einval, Enomem, Eacces, Eperm}
  }

  lemma OutcomeFrozen(s: State, t: State, pid: nat, address: nat, length: nat, prot: Prot, r: Outcome, starved: bool)
    requires Good(s) && address % PAGE == 0 && ProtectOutcome(s, t, pid, address, length, prot, r, starved)
    ensures r in {Eacces, Eperm} ==> prot.write
    ensures r == Eacces ==> exists pl :: MappedIn(t, pid, address, length, pl) && Unchangeable(t, pl)
    ensures r == Eperm ==> exists pl :: MappedIn(t, pid, address, length, pl) && Frozen(t, pl) && !Unchangeable(t, pl)
    ensures r == Done && prot.write ==> forall pl :: MappedIn(s, pid, address, length, pl) ==> !Frozen(s, pl)
    ensures r in {Done, Eacces, Eperm} ==> AllMapped(s, pid, address, length)
    ensures r == Enomem && !starved && AllMapped(s, pid, address, length) ==>
      prot != PROT_NONE && exists pl :: MappedIn(s, pid, address, length, pl) && Reopened(s, pl)
  {
    FrozenPages(s, pid, address, length);
    CoveredIs(s, pid, address, length);
    MappingsAre(s, pid, address, length);
    if r in {Eacces, Eperm} {
      OffenderIs(s, pid, address, length, r);
    }
  }

  lemma OffenderIs(s: State, pid: nat, address: nat, length: nat, r: Outcome)
    requires Good(s) && address % PAGE == 0 && r in {Eacces, Eperm}
    requires Offends(s, MappingsIn(s, pid, address, address + RoundUp(length)), r)
    ensures r == Eacces ==> exists pl :: MappedIn(s, pid, address, length, pl) && Unchangeable(s, pl)
    ensures r == Eperm ==> exists pl :: MappedIn(s, pid, address, length, pl) && Frozen(s, pl) && !Unchangeable(s, pl)
  {
    MappingsAre(s, pid, address, length);
    var pl :| pl in MappingsIn(s, pid, address, address + RoundUp(length)) && Offender(s, pl) &&
      r == if s.backings[s.slots[pl].source.backing].immutable then Eacces else Eperm;
    assert MappedIn(s, pid, address, length, pl) && Frozen(s, pl);
  }

  lemma RangeIs(address: nat, length: nat)
    ensures Kernel.RangeOk(address, length) <==>
      length > 0 && address % PAGE == 0 && address + (length - 1) / PAGE * PAGE + PAGE <= ADDRESS_MAX
  {
    if length > 0 {
      assert RoundUp(length) == (length - 1) / PAGE * PAGE + PAGE;
    }
  }

  /** Whether every page of a range is a mapping of the process. */
  ghost predicate Covered(s: State, pid: nat, address: nat, end: nat) {
    forall k: nat :: address + k * PAGE < end ==> Place(pid, address + k * PAGE) in MappingsIn(s, pid, address, end)
  }

  class Kernel {
    var m: State
    /** Whether memory, or a fixed table of the kernel, has ever run out. */
    ghost var starved: bool

    ghost predicate Valid()
      reads this
    {
      Good(m)
    }

    // ---------- Frames ----------

    /** A free frame filled with `content`, or 0 when memory is exhausted. */
    method AllocatePage(content: Page) returns (f: nat)
      modifies this
      ensures f == 0 ==> m == old(m)
      ensures f != 0 ==> Fresh(old(m), f)
      ensures f != 0 ==> m == old(m).(refs := old(m).refs[f := 1], frames := old(m).frames[f := content])
      ensures f == 0 ==> starved
    {
      var g: nat := *;
      if g == 0 || g in m.refs {
        starved := true;
        return 0;
      }
      m := m.(refs := m.refs[g := 1], frames := m.frames[g := content]);
      return g;
    }

    /** Drops one reference; the last one frees the frame. */
    method RefcountDec(f: nat)
      requires f in m.refs && m.refs[f] > 0
      modifies this`m
      ensures m == old(m).(refs := Lowered(old(m).refs, f), frames := Trimmed(old(m).frames, old(m).refs, f))
    {
      if m.refs[f] > 1 {
        m := m.(refs := m.refs[f := m.refs[f] - 1]);
      } else {
        m := m.(refs := m.refs - {f}, frames := m.frames - {f});
      }
    }

    // ---------- Page tables ----------

    /** Refuses a present entry; otherwise fails only when a leaf table cannot be allocated. */
    method MapPageIn(pl: Place, f: nat, writable: bool) returns (ok: bool)
      modifies this
      ensures ok ==> pl !in old(m).pt && m == Mapped(old(m), pl, f, writable)
      ensures !ok ==> m == old(m)
      ensures pl !in old(m).pt && TableOf(pl) in old(m).tables ==> ok
      ensures !ok && pl !in old(m).pt ==> starved
    {
      if pl in m.pt {
        return false;
      }
      if TableOf(pl) !in m.tables {
        var exhausted: bool := *;
        if exhausted {
          starved := true;
          return false;
        }
      }
      m := m.(pt := m.pt[pl := Pte(f, writable)], tables := m.tables + {TableOf(pl)});
      return true;
    }

    method UnmapPageIn(pl: Place) returns (ok: bool)
      modifies this`m
      ensures ok <==> pl in old(m).pt
      ensures m == old(m).(pt := old(m).pt - {pl})
    {
      ok := pl in m.pt;
      m := m.(pt := m.pt - {pl});
    }

    /** Remapping never fails once the entry was there: its leaf table still exists. */
    method RemapPage(pl: Place, f: nat, writable: bool) returns (ok: bool)
      requires pl in m.pt ==> TableOf(pl) in m.tables
      modifies this
      ensures ok <==> pl in old(m).pt
      ensures m == if ok then old(m).(pt := old(m).pt[pl := Pte(f, writable)]) else old(m)
    {
      ok := UnmapPageIn(pl);
      if !ok {
        assert m.pt == old(m).pt;
        return;
      }
      ok := MapPageIn(pl, f, writable);
      assert m.tables == old(m).tables;
      assert m.pt == old(m).pt[pl := Pte(f, writable)];
    }

    // ---------- Copy on write ----------

    /** The only holder of a copy-on-write frame takes it back. */
    method TakeBack(pl: Place) returns (ok: bool)
      requires CanPromote(m, pl) && TableOf(pl) in m.tables && m.pt[pl].frame == m.resident[SlotCell(pl)]
      modifies this
      ensures ok && m == Promoted(old(m), pl)
    {
      ok := RemapPage(pl, m.resident[SlotCell(pl)], true);
      m := m.(slots := m.slots[pl := m.slots[pl].(cow := false)]);
    }

    /** A shared copy-on-write frame is copied. */
    method TakeCopy(pl: Place) returns (ok: bool, ghost f: nat)
      requires pl in m.slots && pl in m.pt && TableOf(pl) in m.tables
      requires SlotCell(pl) in m.resident && m.resident[SlotCell(pl)] in m.refs && m.resident[SlotCell(pl)] in m.frames
      requires m.refs[m.resident[SlotCell(pl)]] > 1 && m.slots[pl].prot.write && !m.slots[pl].source.Shared?
      modifies this
      ensures ok ==> CanCopy(old(m), pl, f) && m == Copied(old(m), pl, f)
      ensures !ok ==> m == old(m)
      ensures !ok ==> starved
    {
      ghost var s := m;
      var c := SlotCell(pl);
      var before := m.resident[c];
      var g := AllocatePage(m.frames[before]);
      if g == 0 {
        return false, 0;
      }
      ok := RemapPage(pl, g, true);
      RefcountDec(before);
      m := m.(resident := m.resident[c := g], slots := m.slots[pl := m.slots[pl].(cow := false)]);
      f := g;
      SameCopy(s, m, pl, f);
    }

    method ResolveCow(pl: Place) returns (ok: bool)
      requires Valid()
      requires pl in m.slots && m.slots[pl].cow && m.slots[pl].prot.write
      modifies this
      ensures Invisible(old(m), m)
      ensures ok ==> pl in m.pt && m.pt[pl].writable
      ensures !ok ==> m == old(m)
      ensures !ok ==> starved
    {
      ghost var s := m;
      CowFacts(s, pl);
      if m.refs[m.resident[SlotCell(pl)]] == 1 {
        ok := TakeBack(pl);
        PromoteStep(s, pl);
      } else {
        ghost var f;
        ok, f := TakeCopy(pl);
        if ok {
          CopyStep(s, pl, f);
        } else {
          Unchanged(s);
        }
      }
    }

    lemma SameCopy(s: State, t: State, pl: Place, f: nat)
      requires CanCopy(s, pl, f) && s.refs[s.resident[SlotCell(pl)]] > 1
      requires TableOf(pl) in s.tables
      requires var c := SlotCell(pl); var before := s.resident[c];
        t == s.(frames := s.frames[f := s.frames[before]], refs := s.refs[f := 1][before := s.refs[before] - 1],
                resident := s.resident[c := f], slots := s.slots[pl := s.slots[pl].(cow := false)],
                pt := s.pt[pl := Pte(f, true)])
      ensures t == Copied(s, pl, f)
    {
      var u := Copied(s, pl, f);
      assert t.resident == u.resident;
      assert t.refs == u.refs;
      assert t.pt == u.pt;
      assert t.tables == u.tables;
      assert t.frames == u.frames;
    }

    // ---------- First touch of a page ----------

    /** Allocate, fill, map and record: the sequence every private first fault runs. */
    method CommitPage(pl: Place, content: Page, writable: bool) returns (ok: bool, ghost f: nat)
      requires SlotCell(pl) !in m.resident && m.frames.Keys == m.refs.Keys
      modifies this
      ensures ok ==> Fresh(old(m), f) && m == Committed(old(m), pl, f, content, writable)
      ensures !ok ==> m == old(m)
      ensures !ok && pl !in old(m).pt ==> starved
    {
      ghost var s := m;
      var g := AllocatePage(content);
      if g == 0 {
        return false, 0;
      }
      ok := MapPageIn(pl, g, writable);
      if !ok {
        RefcountDec(g);
        UndoAllocate(s, g, content);
        return false, 0;
      }
      m := m.(resident := m.resident[SlotCell(pl) := g]);
      f := g;
    }

    /** A private slot gets its first frame, holding the bytes the process sees there already. */
    method TouchPrivate(pl: Place, content: Page) returns (ok: bool)
      requires Valid()
      requires pl in m.slots && SlotCell(pl) !in m.resident && !m.slots[pl].source.Shared?
      requires View(m, pl) == Some(content)
      modifies this
      ensures Invisible(old(m), m) && m.slots == old(m).slots
      ensures ok ==> pl in m.pt && m.pt[pl].writable == m.slots[pl].prot.write
      ensures ok ==> SlotCell(pl) in m.resident && Held(m.frames, m.resident, SlotCell(pl)) == Some(content)
      ensures forall c :: c != SlotCell(pl) ==> (c in m.resident <==> c in old(m).resident)
      ensures !ok ==> starved
    {
      ghost var s := m;
      AbsentFacts(s, pl);
      ghost var f;
      ok, f := CommitPage(pl, content, m.slots[pl].prot.write);
      if ok {
        CommitStep(s, pl, f, content);
      } else {
        Unchanged(s);
      }
    }

    /** The fault path of a shared mapping: the backing's frame, made on first use, gets one more holder. */
    method JoinBacking(pl: Place, c: Cell, writable: bool) returns (ok: bool, ghost filled: bool, ghost f: nat)
      requires c != SlotCell(pl) && m.frames.Keys == m.refs.Keys
      requires c in m.resident ==> m.resident[c] in m.refs && m.refs[m.resident[c]] > 0
      modifies this
      ensures !ok ==> m == old(m)
      ensures ok ==> (filled <==> c !in old(m).resident)
      ensures ok && filled ==> Fresh(old(m), f)
      ensures ok && filled ==> m == Attached(Filled(old(m), c, f, ZeroPage()), pl, f, true, writable)
      ensures ok && !filled ==> f == old(m).resident[c] && m == Attached(old(m), pl, f, true, writable)
      ensures !ok && pl !in old(m).pt ==> starved
    {
      if c in m.resident {
        f, filled := m.resident[c], false;
        ok := JoinPresent(pl, m.resident[c], writable);
      } else {
        ok, f := JoinFresh(pl, c, writable);
        filled := true;
      }
    }

    /** The backing has the page already. */
    method JoinPresent(pl: Place, g: nat, writable: bool) returns (ok: bool)
      requires g in m.refs
      modifies this
      ensures !ok ==> m == old(m)
      ensures ok ==> m == Attached(old(m), pl, g, true, writable)
      ensures !ok && pl !in old(m).pt ==> starved
    {
      ok := MapPageIn(pl, g, writable);
      if ok {
        m := m.(refs := m.refs[g := m.refs[g] + 1], resident := m.resident[SlotCell(pl) := g]);
      }
    }

    /** The backing gets a zeroed page first, and gives it back if it cannot be mapped. */
    method JoinFresh(pl: Place, c: Cell, writable: bool) returns (ok: bool, ghost f: nat)
      requires c !in m.resident && c != SlotCell(pl) && m.frames.Keys == m.refs.Keys
      modifies this
      ensures !ok ==> m == old(m)
      ensures ok ==> Fresh(old(m), f) && m == Attached(Filled(old(m), c, f, ZeroPage()), pl, f, true, writable)
      ensures !ok && pl !in old(m).pt ==> starved
    {
      ghost var s := m;
      var g := AllocatePage(ZeroPage());
      if g == 0 {
        return false, 0;
      }
      m := m.(resident := m.resident[c := g]);
      ok := JoinPresent(pl, g, writable);
      if !ok {
        m := m.(resident := m.resident - {c});
        RefcountDec(g);
        UndoAllocate(s, g, ZeroPage());
        UndoCell(s, c, g);
      }
      f := g;
    }

    method TouchShared(pl: Place) returns (ok: bool)
      requires Valid()
      requires pl in m.slots && SlotCell(pl) !in m.resident && m.slots[pl].source.Shared?
      modifies this
      ensures Invisible(old(m), m)
      ensures ok ==> pl in m.pt && m.pt[pl].writable == old(m).slots[pl].prot.write
      ensures !ok ==> starved
    {
      ghost var s := m;
      AbsentFacts(s, pl);
      var b, k, w := m.slots[pl].source.backing, m.slots[pl].source.index, m.slots[pl].prot.write;
      var c := BackingCell(b, k);
      SharedFacts(s, pl);
      ghost var filled, f;
      ok, filled, f := JoinBacking(pl, c, w);
      if !ok {
        Unchanged(s);
      } else if filled {
        var u := Filled(s, c, f, ZeroPage());
        BackingFillStep(s, b, k, f);
        SharedStep(u, pl, f);
        InvisibleTwice(s, u, m);
      } else {
        SharedStep(s, pl, f);
      }
    }

    // ---------- Image pages ----------

    method MapCached(pl: Place, f: nat) returns (ok: bool)
      requires f in m.refs && m.refs[f] > 0 && SlotCell(pl) !in m.resident
      modifies this
      ensures ok ==> m == Attached(old(m), pl, f, true, false)
      ensures !ok ==> m == old(m)
      ensures !ok && pl !in old(m).pt ==> starved
    {
      ghost var s := m;
      m := m.(refs := m.refs[f := m.refs[f] + 1]);
      ok := MapPageIn(pl, f, false);
      if !ok {
        RefcountDec(f);
        UndoShare(s, f);
        return;
      }
      m := m.(resident := m.resident[SlotCell(pl) := f]);
    }

    /** `xscore_page_cache_insert` after a miss: a full cache first drops some entry. */
    method CacheInsert(pl: Place, im: Elf.Image, off: nat)
      requires Valid()
      requires pl in m.slots && m.slots[pl].region.Tracked? && !m.slots[pl].prot.write && m.slots[pl].source.Anonymous?
      requires SlotCell(pl) in m.resident && m.resident[SlotCell(pl)] in m.frames
      requires CacheCell(im, off) !in m.resident && CacheOk(im, off, Some(m.frames[m.resident[SlotCell(pl)]]))
      modifies this`m
      ensures Invisible(old(m), m) && m.pt == old(m).pt && m.slots == old(m).slots
    {
      ghost var s := m;
      var f := m.resident[SlotCell(pl)];
      FrameKnown(s, SlotCell(pl));
      Unchanged(s);
      m := m.(refs := m.refs[f := m.refs[f] + 1], resident := m.resident[CacheCell(im, off) := f]);
      CacheStep(s, pl, im, off, f);
      ghost var t := m;
      var victim: Option<Cell> := *;
      if victim.Some? && victim.value in m.resident && victim.value.CacheCell? {
        CellReleasable(t, victim.value);
        RefcountDec(m.resident[victim.value]);
        m := m.(resident := m.resident - {victim.value});
        UncacheStep(t, victim.value);
        InvisibleTwice(s, t, m);
      }
    }

    /** Demand loading: the cached frame if the page may be shared, otherwise a fresh load. */
    method LoadImagePage(pl: Place) returns (ok: bool)
      requires Valid()
      requires pl in m.slots && m.slots[pl].region.Tracked? && !InStack(pl.page) && SlotCell(pl) !in m.resident
      modifies this
      ensures Invisible(old(m), m)
      ensures ok ==> pl in m.pt && m.pt[pl].writable == old(m).slots[pl].prot.write
      ensures !ok ==> starved || View(old(m), pl).None?
    {
      ghost var s := m;
      LoadFacts(s, pl);
      Unchanged(s);
      var program := m.procs[pl.pid].program;
      if program.NoProgram? || pl.page < program.base {
        return false;
      }
      ok := LoadFromImage(pl);
    }

    /** A page that no process writes and that has no relocations is shared through the cache. */
    method LoadFromImage(pl: Place) returns (ok: bool)
      requires Valid() && ImagePage(m, pl)
      modifies this
      ensures Invisible(old(m), m)
      ensures ok ==> pl in m.pt && m.pt[pl].writable == old(m).slots[pl].prot.write
      ensures !ok ==> starved || View(old(m), pl).None?
    {
      var program := m.procs[pl.pid].program;
      var im, off := program.image, pl.page - program.base;
      var readonly := !m.slots[pl].prot.write && !Elf.HasRelocations(im, off);
      if readonly && CacheCell(im, off) in m.resident {
        ok := LoadCached(pl, m.resident[CacheCell(im, off)]);
      } else {
        ok := LoadUncached(pl, readonly);
      }
    }

    /** The page is read from the image; one that never differs between processes goes to the cache. */
    method LoadUncached(pl: Place, readonly: bool) returns (ok: bool)
      requires Valid() && ImagePage(m, pl)
      requires readonly ==> !m.slots[pl].prot.write && !Elf.HasRelocations(ImageOf(m, pl), OffsetOf(m, pl))
      requires readonly ==> CacheCell(ImageOf(m, pl), OffsetOf(m, pl)) !in m.resident
      modifies this
      ensures Invisible(old(m), m)
      ensures ok ==> pl in m.pt && m.pt[pl].writable == old(m).slots[pl].prot.write
      ensures !ok ==> starved || View(old(m), pl).None?
    {
      ImagePageUnloaded(m, pl);
      Unchanged(m);
      var program := m.procs[pl.pid].program;
      var im, off := program.image, pl.page - program.base;
      var loaded := Elf.LazyPage(im, program.base, off);
      UnloadedView(m, pl);
      if loaded.None? {
        return false;
      }
      if readonly {
        CacheableLoad(im, program.base, off);
      }
      ok := LoadFresh(pl, im, off, loaded.value, readonly);
    }

    method LoadCached(pl: Place, f: nat) returns (ok: bool)
      requires Valid() && ImagePage(m, pl) && !m.slots[pl].prot.write
      requires CacheCell(ImageOf(m, pl), OffsetOf(m, pl)) in m.resident
      requires f == m.resident[CacheCell(ImageOf(m, pl), OffsetOf(m, pl))]
      modifies this
      ensures Invisible(old(m), m)
      ensures ok ==> pl in m.pt && m.pt[pl] == Pte(f, false) && m.slots == old(m).slots
      ensures !ok ==> starved
    {
      ghost var s := m;
      AbsentFacts(s, pl);
      ImagePageUnloaded(s, pl);
      FrameKnown(s, CacheCell(ImageOf(s, pl), OffsetOf(s, pl)));
      ok := MapCached(pl, f);
      if ok {
        CachedStep(s, pl, f);
      } else {
        Unchanged(s);
      }
    }

    method LoadFresh(pl: Place, im: Elf.Image, off: nat, content: Page, readonly: bool) returns (ok: bool)
      requires Valid()
      requires Unloaded(m, pl) && View(m, pl) == Some(content) && m.slots[pl].source.Anonymous?
      requires readonly ==> !m.slots[pl].prot.write && CacheCell(im, off) !in m.resident
      requires readonly ==> CacheOk(im, off, Some(content))
      modifies this
      ensures Invisible(old(m), m)
      ensures ok ==> pl in m.pt && m.pt[pl].writable == old(m).slots[pl].prot.write
      ensures !ok ==> starved
    {
      ghost var s := m;
      ok := TouchPrivate(pl, content);
      if ok && readonly {
        ghost var t := m;
        CacheInsert(pl, im, off);
        InvisibleTwice(s, t, m);
      }
    }

    // ---------- The stack ----------

    /** Allocate, fill, map and track a page; the tracking table may be full. */
    method MapNewPage(pl: Place, slot: Slot, content: Page) returns (ok: bool, ghost f: nat)
      requires pl !in m.pt && SlotCell(pl) !in m.resident && m.frames.Keys == m.refs.Keys
      modifies this
      ensures ok ==> Fresh(old(m), f) && m == Planted(old(m), pl, slot, f, content)
      ensures !ok ==> m == old(m) || m == old(m).(tables := old(m).tables + {TableOf(pl)})
      ensures !ok ==> starved
    {
      ghost var s := m;
      ok, f := CommitPage(pl, content, slot.prot.write);
      if !ok {
        return;
      }
      var full: bool := *;
      if full {
        starved := true;
        Uncommit(s, pl, f, content, slot.prot.write);
        return false, 0;
      }
      m := m.(slots := m.slots[pl := slot]);
    }

    /** The page that could not be tracked goes again; a leaf table made for it stays. */
    method Uncommit(ghost s: State, pl: Place, ghost f: nat, ghost content: Page, ghost writable: bool)
      requires pl !in s.pt && SlotCell(pl) !in s.resident && s.frames.Keys == s.refs.Keys && Fresh(s, f)
      requires m == Committed(s, pl, f, content, writable)
      modifies this`m
      ensures m == s.(tables := s.tables + {TableOf(pl)})
    {
      var unmapped := UnmapPageIn(pl);
      RefcountDec(m.resident[SlotCell(pl)]);
      m := m.(resident := m.resident - {SlotCell(pl)});
      UndoAllocate(s, f, content);
      UndoMap(s, pl, f, writable);
      UndoCell(s, SlotCell(pl), f);
    }

    /** A page of the stack window that has no frame gets a zero one. */
    method GrowOnto(pl: Place) returns (ok: bool)
      requires Valid()
      requires pl.pid in m.procs && InStack(pl.page) && pl.page % PAGE == 0
      requires pl in m.slots ==> m.slots[pl].region.Tracked?
      requires SlotCell(pl) !in m.resident
      modifies this
      ensures Invisible(old(m), m) && m.procs == old(m).procs
      ensures ok ==> pl in m.pt && m.pt[pl].writable
      ensures ok && pl !in old(m).slots ==> pl in m.slots && m.slots[pl].prot == Prot(true, true, false)
      ensures !ok ==> starved
    {
      ghost var s := m;
      AbsentFacts(s, pl);
      Unchanged(s);
      ghost var f;
      ok, f := MapNewPage(pl, STACK_SLOT, ZeroPage());
      if !ok {
        if m != s {
          TablesStep(s, TableOf(pl));
        }
        return;
      }
      StackGrows(s, pl, f);
    }

    method SetStackBottom(pid: nat, bottom: nat)
      requires Valid() && pid in m.procs && bottom % PAGE == 0 && 0 < bottom <= STACK_TOP
      modifies this`m
      ensures Invisible(old(m), m)
      ensures m == Resized(old(m), pid, old(m).procs[pid].(stackBottom := bottom))
    {
      assert ProcOk(m.procs[pid]);
      ResizeStep(m, pid, m.procs[pid].(stackBottom := bottom));
      m := m.(procs := m.procs[pid := m.procs[pid].(stackBottom := bottom)]);
    }

    /** A fault on an absent page of the stack window. */
    method StackFault(pl: Place) returns (ok: bool)
      requires Valid()
      requires pl.pid in m.procs && InStack(pl.page) && pl.page % PAGE == 0 && pl !in m.pt
      modifies this
      ensures Invisible(old(m), m)
      ensures ok ==> Served(old(m), pl, m, true)
      ensures !ok ==> starved
      ensures ok && pl !in old(m).slots ==> pl in m.slots && m.slots[pl].prot == Prot(true, true, false)
      ensures ok && pl !in old(m).slots ==> pl.pid in m.procs
      ensures ok && pl !in old(m).slots && pl.page < old(m).procs[pl.pid].stackBottom ==>
        m.procs[pl.pid].stackBottom == pl.page
      ensures ok && pl !in old(m).slots && pl.page >= old(m).procs[pl.pid].stackBottom ==>
        m.procs[pl.pid].stackBottom == old(m).procs[pl.pid].stackBottom
    {
      ghost var s := m;
      StackFacts(s, pl);
      if pl in m.slots {
        StackView(s, pl);
        ok := TouchPrivate(pl, ZeroPage());
        return;
      }
      ok := GrowOnto(pl);
      if ok && pl.page < m.procs[pl.pid].stackBottom {
        ghost var t := m;
        SetStackBottom(pl.pid, pl.page);
        InvisibleTwice(s, t, m);
      }
    }

    /**
     The contiguous growth loop at the end of the fault handler. It is only reached for a
     page that is present, and ends at that page, which cannot be mapped again.
     */
    method GrowStack(pid: nat, page: nat) returns (ok: bool)
      requires Valid() && pid in m.procs && STACK_LIMIT <= page < m.procs[pid].stackBottom && page % PAGE == 0
      requires Place(pid, page) in m.pt
      modifies this
      ensures Invisible(old(m), m) && !ok
    {
      ghost var s := m;
      Unchanged(s);
      while m.procs[pid].stackBottom > page
        invariant pid in m.procs && Invisible(s, m) && m.procs[pid].stackBottom > page && Place(pid, page) in m.pt
        decreases m.procs[pid].stackBottom
      {
        ok := GrowOnce(s, pid, page);
        if !ok {
          return false;
        }
      }
      return true;
    }

    /** One page of the growth loop; it stops before a page that is present. */
    method GrowOnce(ghost s: State, pid: nat, page: nat) returns (ok: bool)
      requires Invisible(s, m) && pid in m.procs && STACK_LIMIT <= page < m.procs[pid].stackBottom && page % PAGE == 0
      requires Place(pid, page) in m.pt
      modifies this
      ensures Invisible(s, m) && pid in m.procs && Place(pid, page) in m.pt
      ensures ok ==> page < m.procs[pid].stackBottom < old(m).procs[pid].stackBottom
    {
      ghost var t := m;
      var next: int := m.procs[pid].stackBottom - PAGE;
      BelowBottom(t, pid, page, next);
      if Place(pid, next) in m.pt {
        return false;
      }
      ok := GrowTo(s, pid, next);
      PageStillMapped(t, m, Place(pid, page));
    }

    method GrowTo(ghost s: State, pid: nat, next: nat) returns (ok: bool)
      requires Invisible(s, m) && pid in m.procs && InStack(next) && next % PAGE == 0 && Place(pid, next) !in m.pt
      modifies this
      ensures Invisible(s, m) && pid in m.procs && PtGrows(old(m).pt, m.pt)
      ensures ok ==> m.procs[pid].stackBottom == next
    {
      ghost var t := m;
      var pl := Place(pid, next);
      StackFacts(t, pl);
      ok := GrowOnto(pl);
      InvisibleTwice(s, t, m);
      if ok {
        ghost var u := m;
        SetStackBottom(pid, next);
        InvisibleTwice(s, u, m);
        PtGrowsTwice(t.pt, u.pt, m.pt);
      }
    }

    // ---------- The fault handler ----------

    /** A fault on an absent page of a mapping. */
    method MappingFault(pl: Place, write: bool) returns (ok: bool)
      requires Valid()
      requires pl in m.slots && m.slots[pl].region.Mapping? && pl !in m.pt
      modifies this
      ensures Invisible(old(m), m)
      ensures ok ==> Served(old(m), pl, m, true)
      ensures ok ==> MappingPermits(old(m), pl, write)
      ensures !ok ==> starved || !MappingPermits(old(m), pl, write)
    {
      ghost var s := m;
      Unchanged(s);
      LoadFacts(s, pl);
      if SlotCell(pl) in m.resident {
        InaccessibleFacts(s, pl);
        ok := MapPageIn(pl, m.resident[SlotCell(pl)], m.slots[pl].prot.write);
        if ok {
          RestoreStep(s, pl);
        }
        return;
      }
      var slot := m.slots[pl];
      if slot.prot == PROT_NONE || (write && !slot.prot.write) {
        return false;
      }
      match slot.source
      case Shared(_, _) =>
        ok := TouchShared(pl);
      case Anonymous =>
        ok := TouchPrivate(pl, ZeroPage());
      case Snapshot(b, offset) =>
        SnapshotFacts(s, pl);
        ok := TouchPrivate(pl, SnapshotPage(m.backings[b].data, offset));
    }

    /**
     Every fault, resolved or refused, is invisible: it changes no byte that any process
     sees, it conserves references, and it neither loses nor weakens a page-table entry.
     Unless memory has run out, it is resolved if and only if the access is permitted.
     */
    method HandlePageFault(pid: nat, address: nat, write: bool) returns (ok: bool)
      requires Valid() && pid in m.procs
      modifies this
      ensures Invisible(old(m), m) && Step(old(m), m, pid)
      ensures ok ==> Served(old(m), Place(pid, address / PAGE * PAGE), m, write)
      ensures ok ==> Permitted(old(m), pid, address, write)
      ensures !ok ==> starved || !Permitted(old(m), pid, address, write)
      ensures AccessibleAt(old(m), pid, address, write) ==>
        starved || EntryReady(m.pt, Place(pid, address / PAGE * PAGE), write)
      ensures Untouched(old(m), pid, address) && HEAP_START <= address < old(m).procs[pid].heapBreak ==>
        starved || (ok && EntryReady(m.pt, Place(pid, address / PAGE * PAGE), true))
      ensures Untouched(old(m), pid, address) && !(HEAP_START <= address < old(m).procs[pid].heapBreak) ==> !ok
    {
      ghost var s := m;
      ok := ResolveFault(pid, address, write);
      InvisibleSteps(s, m, pid);
      if !starved || ok {
        FaultServes(s, m, pid, address, write, ok);
        if Untouched(s, pid, address) {
          HeapFaults(s, m, pid, address, write, ok);
        }
      }
    }

    method ResolveFault(pid: nat, address: nat, write: bool) returns (ok: bool)
      requires Valid() && pid in m.procs
      modifies this
      ensures Invisible(old(m), m)
      ensures ok ==> Served(old(m), Place(pid, address / PAGE * PAGE), m, write)
      ensures ok ==> Permitted(old(m), pid, address, write)
      ensures !ok ==> starved || !Permitted(old(m), pid, address, write)
    {
      ghost var s := m;
      Unchanged(s);
      if m.procs[pid].stackBottom == 0 {
        return false;
      }
      var pl := Place(pid, address / PAGE * PAGE);
      if write && pl in m.slots && m.slots[pl].cow {
        if !m.slots[pl].prot.write {
          return false;
        }
        ok := ResolveCow(pl);
        return;
      }
      if pl in m.pt {
        if STACK_LIMIT <= pl.page < m.procs[pid].stackBottom {
          ok := GrowStack(pid, pl.page);
          return;
        }
        return false;
      }
      if InStack(pl.page) {
        ok := StackFault(pl);
        return;
      }
      if pl !in m.slots {
        return false;
      }
      ok := AbsentFault(pl, address, write);
    }

    method AbsentFault(pl: Place, address: nat, write: bool) returns (ok: bool)
      requires Valid() && pl in m.slots && pl !in m.pt && !InStack(pl.page)
      modifies this
      ensures Invisible(old(m), m)
      ensures ok ==> Served(old(m), pl, m, true)
      ensures ok ==> SlotPermits(old(m), pl, address, write)
      ensures !ok ==> starved || !SlotPermits(old(m), pl, address, write)
    {
      ghost var s := m;
      Unchanged(s);
      LoadFacts(s, pl);
      match m.slots[pl].region
      case Mapping =>
        ok := MappingFault(pl, write);
      case Tracked =>
        if write && !m.slots[pl].prot.write {
          return false;
        }
        AlwaysMapped(s, pl);
        ok := LoadImagePage(pl);
      case Heap =>
        if !(HEAP_START <= address < m.procs[pl.pid].heapBreak) {
          return false;
        }
        AlwaysMapped(s, pl);
        ok := TouchPrivate(pl, ZeroPage());
    }

    // ---------- Taking slots away ----------

    method EmptySlot(pl: Place)
      requires pl in m.slots && SlotCell(pl) in m.resident
      requires m.resident[SlotCell(pl)] in m.refs && m.refs[m.resident[SlotCell(pl)]] > 0
      modifies this`m
      ensures m == Emptied(old(m), pl)
    {
      var unmapped := UnmapPageIn(pl);
      RefcountDec(m.resident[SlotCell(pl)]);
      m := m.(resident := m.resident - {SlotCell(pl)}, slots := m.slots[pl := m.slots[pl].(cow := false)]);
    }

    /** The last reference to a shared backing drops every frame the backing holds. */
    method DropBackingFrames(pl: Place, b: nat)
      requires Valid() && LastSlot(m, pl, b) && SlotCell(pl) !in m.resident
      modifies this`m
      ensures Valid() && ViewsBut(old(m), m, pl) && SharedBut(old(m), m, b)
      ensures m == old(m).(frames := m.frames, refs := m.refs, resident := m.resident)
      ensures forall k :: BackingCell(b, k) !in m.resident
      ensures SlotCell(pl) !in m.resident
    {
      ghost var s := m;
      var todo := set c | c in m.resident && c.BackingCell? && c.backing == b;
      while todo != {}
        invariant Valid() && ViewsBut(s, m, pl) && SharedBut(s, m, b)
        invariant m == s.(frames := m.frames, refs := m.refs, resident := m.resident)
        invariant SlotCell(pl) !in m.resident
        invariant forall c :: c in todo <==> c in m.resident && c.BackingCell? && c.backing == b
        decreases |todo|
      {
        ghost var t := m;
        var c :| c in todo;
        DropFrameStep(t, c, pl);
        RefcountDec(m.resident[c]);
        m := m.(resident := m.resident - {c});
        todo := todo - {c};
        ViewsButTwice(s, t, m, pl);
        SharedButTwice(s, t, m, b);
      }
    }

    method Unslot(pl: Place)
      requires CanUnslot(m, pl)
      modifies this`m
      ensures m == Unslotted(old(m), pl)
    {
      if m.slots[pl].source.Anonymous? {
        m := m.(slots := m.slots - {pl});
      } else {
        var b := m.slots[pl].source.backing;
        var last := m.shares[b] == 1;
        m := m.(slots := m.slots - {pl}, attached := m.attached - {SlotRef(pl)},
                shares := if last then m.shares - {b} else m.shares[b := m.shares[b] - 1],
                backings := if last then m.backings - {b} else m.backings);
      }
    }

    /** One slot is unmapped, gives back its frame and its backing, and disappears. */
    method RemoveSlot(pl: Place)
      requires Valid() && pl in m.slots
      modifies this`m
      ensures Valid() && ViewsBut(old(m), m, pl) && FewerShared(old(m), m)
      ensures m.slots == old(m).slots - {pl} && m.procs == old(m).procs
    {
      ghost var s := m;
      Unchanged(s);
      if SlotCell(pl) in m.resident {
        EmptyStep(s, pl);
        EmptySlot(pl);
        GoneChanged(s.slots, pl, m.slots[pl]);
      }
      RemoveEmpty(s, pl);
    }

    method RemoveEmpty(ghost s: State, pl: Place)
      requires Valid() && pl in m.slots && SlotCell(pl) !in m.resident
      requires ViewsBut(s, m, pl) && SameShared(s, m)
      modifies this`m
      ensures Valid() && ViewsBut(s, m, pl) && FewerShared(s, m)
      ensures m.slots == old(m).slots - {pl} && m.procs == old(m).procs
    {
      ghost var t := m;
      SameIsFewer(s, t);
      if !m.slots[pl].source.Anonymous? {
        LastSlotFacts(t, pl);
        if m.shares[m.slots[pl].source.backing] == 1 {
          RemoveLast(s, pl);
          return;
        }
      }
      UnslotStep(t, pl);
      Unslot(pl);
      ViewsButTwice(s, t, m, pl);
      FewerSharedTwice(s, t, m);
    }

    /** The last slot of a backing takes the backing with it. */
    method RemoveLast(ghost s: State, pl: Place)
      requires Valid() && pl in m.slots && SlotCell(pl) !in m.resident
      requires ViewsBut(s, m, pl) && FewerShared(s, m)
      requires !m.slots[pl].source.Anonymous? && LastSlot(m, pl, m.slots[pl].source.backing)
      requires m.slots[pl].source.backing in m.shares && m.shares[m.slots[pl].source.backing] == 1
      modifies this`m
      ensures Valid() && ViewsBut(s, m, pl) && FewerShared(s, m)
      ensures m.slots == old(m).slots - {pl} && m.procs == old(m).procs
    {
      ghost var t := m;
      var b := m.slots[pl].source.backing;
      DropBackingFrames(pl, b);
      ghost var u := m;
      UnslotStep(u, pl);
      Unslot(pl);
      ViewsButTwice(s, t, u, pl);
      ViewsButTwice(s, u, m, pl);
      FewerAfterDrop(t, u, m, b);
      FewerSharedTwice(s, t, m);
    }

    /** All slots in `gone` go away, and nobody sees any other change. */
    method RemoveSlots(gone: set<Place>)
      requires Valid() && gone <= m.slots.Keys
      modifies this`m
      ensures Valid() && ViewsOutside(old(m), m, gone) && FewerShared(old(m), m)
      ensures m.slots == old(m).slots - gone && m.procs == old(m).procs
    {
      ghost var s := m;
      var done: set<Place> := {};
      Unchanged(s);
      SameIsFewer(s, s);
      assert m.slots - done == m.slots;
      while gone - done != {}
        invariant done <= gone
        invariant Valid() && ViewsOutside(s, m, done) && FewerShared(s, m)
        invariant m.slots == s.slots - done && m.procs == s.procs
        decreases gone - done
      {
        ghost var t := m;
        var pl :| pl in gone - done;
        RemoveSlot(pl);
        ViewsOutsideMore(s, t, m, done, pl);
        FewerSharedTwice(s, t, m);
        GoneMore(s.slots, done, pl);
        done := done + {pl};
      }
    }

    // ---------- munmap, process teardown and brk ----------

    /** A mapping range that `munmap` and `mprotect` accept. */
    static predicate RangeOk(address: nat, length: nat) {
      && length != 0 && address % PAGE == 0 && length <= ADDRESS_MAX - (PAGE - 1)
      && address <= ADDRESS_MAX - RoundUp(length)
    }

    /** `munmap`: exactly the mapping slots in the range go away. */
    method Munmap(pid: nat, address: nat, length: nat) returns (ok: bool)
      requires Valid()
      modifies this`m
      ensures Valid() && ok == RangeOk(address, length) && FewerShared(old(m), m)
      ensures !ok ==> m == old(m)
      ensures ok ==> m.slots == old(m).slots - MappingsIn(old(m), pid, address, address + RoundUp(length))
      ensures ok ==> ViewsOutside(old(m), m, MappingsIn(old(m), pid, address, address + RoundUp(length)))
      ensures ok ==> m.procs == old(m).procs
      ensures Step(old(m), m, pid)
      ensures ok <==> length > 0 && address % PAGE == 0 && address + (length - 1) / PAGE * PAGE + PAGE <= ADDRESS_MAX
      ensures ok ==> forall pl :: pl in m.slots <==> pl in old(m).slots && !MappedIn(old(m), pid, address, length, pl)
    {
      ghost var s := m;
      Unchanged(s);
      SameIsFewer(s, s);
      RangeIs(address, length);
      ok := RangeOk(address, length);
      if ok {
        MappingsAre(s, pid, address, length);
      }
      if ok {
        var gone := MappingsIn(m, pid, address, address + RoundUp(length));
        RemoveSlots(gone);
        RemoveSteps(s, m, gone, pid);
      } else {
        InvisibleSteps(s, s, pid);
      }
    }

    /** `release_process_pages`: nothing of the process's memory is left behind. */
    method ReleaseProcessPages(pid: nat)
      requires Valid() && pid in m.procs
      modifies this`m
      ensures Valid() && FewerShared(old(m), m)
      ensures m.procs == old(m).procs[pid := old(m).procs[pid].(program := NoProgram, heapBreak := HEAP_START)]
      ensures m.slots == old(m).slots - SlotsOf(old(m), pid)
      ensures forall q: Place :: q.pid == pid ==> q !in m.slots && SlotCell(q) !in m.resident && q !in m.pt
      ensures forall q: Place :: q.pid != pid ==> View(m, q) == View(old(m), q)
      ensures Step(old(m), m, pid)
    {
      ghost var s := m;
      var gone := SlotsOf(m, pid);
      RemoveSlots(gone);
      assert ProcOk(m.procs[pid]);
      ghost var t := m;
      var p := m.procs[pid].(program := NoProgram, heapBreak := HEAP_START);
      ProcessStep(t, pid, p);
      m := m.(procs := m.procs[pid := p]);
      NothingLeft(m, pid);
      SharedUntouched(t, m);
      SameIsFewer(t, m);
      FewerSharedTwice(s, t, m);
      forall q: Place | q.pid != pid
        ensures View(m, q) == View(s, q)
      {
        assert View(t, q) == View(s, q);
      }
      ReleaseSteps(s, m, pid);
    }

    /** The heap grows by slots that have no frame yet. */
    method GrowHeap(pid: nat, from: nat, to: nat)
      requires Valid() && pid in m.procs && from <= to <= MAX_HEAP_PAGES
      modifies this`m
      ensures Valid() && m.procs == old(m).procs && HeapGrown(old(m), m, pid, from, to) && SameShared(old(m), m)
    {
      ghost var s := m;
      var k := from;
      while k < to
        invariant from <= k <= to && Valid() && HeapGrown(s, m, pid, from, k) && m == s.(slots := m.slots)
      {
        ghost var t := m;
        var pl := HeapPlace(pid, k);
        if pl !in m.slots {
          HeapSlotStep(t, pid, k);
          m := m.(slots := m.slots[pl := HEAP_SLOT]);
        }
        HeapGrownMore(s, t, m, pid, from, k);
        k := k + 1;
      }
      SharedUntouched(s, m);
    }

    method SetBreak(pid: nat, breakAt: nat)
      requires Valid() && pid in m.procs && HEAP_START <= breakAt <= HEAP_END
      modifies this`m
      ensures Valid() && SameViews(old(m), m) && SameShared(old(m), m) && m.slots == old(m).slots
      ensures m.procs == old(m).procs[pid := old(m).procs[pid].(heapBreak := breakAt)]
    {
      assert ProcOk(m.procs[pid]);
      ResizeKeeps(m, pid, m.procs[pid].(heapBreak := breakAt));
      m := m.(procs := m.procs[pid := m.procs[pid].(heapBreak := breakAt)]);
    }

    /** `brk`: growing adds zero pages, shrinking takes whole pages away, and no other page changes. */
    method Brk(pid: nat, wanted: nat) returns (breakAt: nat)
      requires Valid() && pid in m.procs
      modifies this`m
      ensures Valid() && FewerShared(old(m), m)
      ensures m.procs == old(m).procs[pid := old(m).procs[pid].(heapBreak := breakAt)]
      ensures breakAt == if HEAP_START <= wanted <= HEAP_END then wanted else old(m).procs[pid].heapBreak
      ensures HEAP_START <= old(m).procs[pid].heapBreak
      ensures breakAt == old(m).procs[pid].heapBreak ==> m == old(m)
      ensures breakAt > old(m).procs[pid].heapBreak ==>
        HeapGrown(old(m), m, pid, HeapPages(old(m).procs[pid].heapBreak), HeapPages(breakAt))
      ensures HEAP_START <= breakAt
      ensures breakAt < old(m).procs[pid].heapBreak ==>
        m.slots == old(m).slots - HeapAbove(old(m), pid, HeapPages(breakAt))
      ensures breakAt < old(m).procs[pid].heapBreak ==>
        ViewsOutside(old(m), m, HeapAbove(old(m), pid, HeapPages(breakAt)))
      ensures Step(old(m), m, pid)
      ensures HeapWhole(old(m), pid) ==> HeapWhole(m, pid) && HeapUsable(m, pid)
    {
      ghost var s := m;
      assert ProcOk(m.procs[pid]);
      breakAt := m.procs[pid].heapBreak;
      Unchanged(s);
      SameIsFewer(s, s);
      InvisibleSteps(s, s, pid);
      if HeapWhole(s, pid) {
        BreakGrants(s, pid);
      }
      if wanted == breakAt || wanted < HEAP_START || wanted > HEAP_END {
        return;
      }
      if wanted > breakAt {
        GrowHeap(pid, HeapPages(breakAt), HeapPages(wanted));
        SameIsFewer(s, m);
      } else {
        RemoveSlots(HeapAbove(m, pid, HeapPages(wanted)));
      }
      ghost var t := m;
      SetBreak(pid, wanted);
      SameIsFewer(t, m);
      FewerSharedTwice(s, t, m);
      if wanted > breakAt {
        HeapGrownKept(s, t, m, pid, HeapPages(breakAt), HeapPages(wanted));
        GrowSteps(s, m, pid, HeapPages(breakAt), HeapPages(wanted));
      } else {
        ViewsOutsideKept(s, t, m, HeapAbove(s, pid, HeapPages(wanted)));
        RemoveSteps(s, m, HeapAbove(s, pid, HeapPages(wanted)), pid);
      }
      if HeapWhole(s, pid) {
        BreakMoves(s, m, pid, wanted);
        BreakGrants(m, pid);
      }
      breakAt := wanted;
    }

    // ---------- fork ----------

    /** The child's slot, without a frame; it takes a reference to the backing. */
    method ReserveTwin(pl: Place, cpl: Place)
      requires pl in m.slots
      modifies this`m
      ensures m == Slotted(old(m), cpl, Twin(old(m).slots[pl]), None)
    {
      var slot := Twin(m.slots[pl]);
      m := m.(slots := m.slots[cpl := slot]);
      if !slot.source.Anonymous? {
        var b := slot.source.backing;
        m := m.(attached := m.attached[SlotRef(cpl) := b],
                shares := m.shares[b := (if b in m.shares then m.shares[b] else 0) + 1]);
      }
    }

    /** The parent's page becomes read-only and copy-on-write. */
    method DemoteParent(pl: Place)
      requires pl in m.slots && SlotCell(pl) in m.resident
      requires m.slots[pl].prot != PROT_NONE ==> pl in m.pt
      requires pl in m.pt ==> PteOk(pl, m.pt[pl], m.tables, m.slots, m.resident)
      modifies this
      ensures m == ParentSide(old(m), pl)
    {
      var slot := m.slots[pl];
      if NeedsCow(slot) && !slot.cow {
        if slot.prot != PROT_NONE {
          var ok := RemapPage(pl, m.resident[SlotCell(pl)], false);
        } else if pl in m.pt {
          assert m.pt == m.pt[pl := Pte(m.pt[pl].frame, false)];
        }
        m := m.(slots := m.slots[pl := slot.(cow := true)]);
      }
    }

    /** The child maps the parent's frame and takes a reference to it. */
    method ShareWithChild(cpl: Place, f: nat) returns (ok: bool)
      requires cpl in m.slots && f in m.refs
      modifies this
      ensures ok ==> m == ChildSide(old(m), cpl, f)
      ensures !ok ==> m == old(m)
      ensures !ok && cpl !in old(m).pt ==> starved
    {
      ghost var s := m;
      var slot := m.slots[cpl];
      var cow := NeedsCow(slot);
      ok := MapUnlessNone(cpl, f, slot.prot, cow);
      if ok {
        ghost var mapped := m;
        m := m.(slots := m.slots[cpl := slot.(cow := cow)], refs := m.refs[f := m.refs[f] + 1],
                resident := m.resident[SlotCell(cpl) := f]);
        SameChild(s, mapped, m, cpl, f);
      }
    }

    /** An inaccessible page gets no entry. */
    method MapUnlessNone(pl: Place, f: nat, prot: Prot, cow: bool) returns (ok: bool)
      modifies this
      ensures ok ==> m == if prot != PROT_NONE then Mapped(old(m), pl, f, prot.write && !cow) else old(m)
      ensures !ok ==> m == old(m)
      ensures !ok && pl !in old(m).pt ==> starved
    {
      ok := true;
      if prot != PROT_NONE {
        ok := MapPageIn(pl, f, prot.write && !cow);
      }
    }

    lemma SameChild(s: State, mapped: State, t: State, cpl: Place, f: nat)
      requires cpl in s.slots && f in s.refs
      requires var slot := s.slots[cpl];
        mapped == (if slot.prot != PROT_NONE then Mapped(s, cpl, f, slot.prot.write && !NeedsCow(slot)) else s)
      requires t == mapped.(slots := s.slots[cpl := s.slots[cpl].(cow := NeedsCow(s.slots[cpl]))],
                            refs := s.refs[f := s.refs[f] + 1], resident := s.resident[SlotCell(cpl) := f])
      ensures t == ChildSide(s, cpl, f)
    {
      var u := ChildSide(s, cpl, f);
      assert t.slots == u.slots;
      assert t.pt == u.pt;
      assert t.tables == u.tables;
    }

    /** One slot of the parent is copied; only the child's page looks different afterwards. */
    method ForkSlot(pl: Place, child: nat) returns (ok: bool)
      requires Valid() && pl in m.slots && child in m.procs && Place(child, pl.page) !in m.slots && pl.pid != child
      requires pl.pid in m.procs && m.procs[child].program == m.procs[pl.pid].program
      modifies this
      ensures Valid() && m.procs == old(m).procs && ViewsBut(old(m), m, Place(child, pl.page)) && SameShared(old(m), m)
      ensures SlotsKept(old(m).slots, m.slots) && m.slots.Keys == old(m).slots.Keys + {Place(child, pl.page)}
      ensures Inherits(old(m).slots, pl, m.slots, Place(child, pl.page))
      ensures ok ==> View(m, Place(child, pl.page)) == View(old(m), pl)
      ensures !ok ==> starved
      ensures ResidentsBut(old(m).resident, m.resident, Place(child, pl.page))
      ensures ok ==> (SlotCell(Place(child, pl.page)) in m.resident <==> SlotCell(pl) in old(m).resident)
    {
      ghost var s := m;
      var cpl := Place(child, pl.page);
      ReserveTwin(pl, cpl);
      ghost var t := m;
      ReserveTwinStep(s, pl, child, t);
      TwinSlots(s, cpl, Twin(s.slots[pl]));
      SharedUntouched(s, t);
      TwinFresh(s, cpl);
      if SlotCell(pl) !in m.resident {
        return true;
      }
      ok := ForkFrame(s, pl, cpl);
      SameSharedTwice(s, t, m);
      SlotsKeptTwice(s.slots, t.slots, m.slots);
      InheritsKept(s.slots, pl, t.slots, m.slots, cpl);
    }

    /** The parent gives up its exclusive use of the frame; nobody can see that. */
    method PrepareShare(ghost s: State, pl: Place, cpl: Place)
      requires Valid() && pl in m.slots && cpl in m.slots && pl != cpl && SlotCell(pl) in m.resident
      requires SlotCell(cpl) !in m.resident
      requires SameShape(m.slots[pl], m.slots[cpl]) && m.slots[pl].prot == m.slots[cpl].prot
      requires ViewsBut(s, m, cpl)
      modifies this
      ensures Valid() && m.procs == old(m).procs && ViewsBut(s, m, cpl) && Shareable(m, pl, cpl)
      ensures SameShared(old(m), m)
      ensures SlotsKept(old(m).slots, m.slots) && m.slots.Keys == old(m).slots.Keys
      ensures m.resident[SlotCell(pl)] in m.refs && m.resident == old(m).resident
    {
      ghost var t := m;
      ForkFacts(t, pl);
      ParentStep(t, pl);
      ParentSlots(t, pl, cpl);
      DemoteParent(pl);
      ViewsButSame(s, t, m, cpl);
      ParentShared(t, pl);
    }

    method ForkFrame(ghost s: State, pl: Place, cpl: Place) returns (ok: bool)
      requires Valid() && pl in m.slots && cpl in m.slots && pl != cpl && SlotCell(pl) in m.resident
      requires SlotCell(cpl) !in m.resident
      requires SameShape(m.slots[pl], m.slots[cpl]) && m.slots[pl].prot == m.slots[cpl].prot
      requires ViewsBut(s, m, cpl)
      modifies this
      ensures Valid() && m.procs == old(m).procs && ViewsBut(s, m, cpl) && SameShared(old(m), m)
      ensures SlotsKept(old(m).slots, m.slots) && m.slots.Keys == old(m).slots.Keys
      ensures ok ==> View(m, cpl) == View(s, pl)
      ensures !ok ==> starved
      ensures ResidentsBut(old(m).resident, m.resident, cpl) && (ok ==> SlotCell(cpl) in m.resident)
    {
      ghost var t := m;
      AbsentFacts(t, cpl);
      PrepareShare(s, pl, cpl);
      ghost var u := m;
      var f := m.resident[SlotCell(pl)];
      ok := ShareWithChild(cpl, f);
      if ok {
        ChildStep(u, pl, cpl, f);
        ViewsButTwice(s, u, m, cpl);
        ChildFields(u, cpl, f, m);
        ChildSlots(u, m, cpl);
        SlotsKeptTwice(t.slots, u.slots, m.slots);
        ChildShared(u, pl, cpl, f, m);
        SameSharedTwice(t, u, m);
      }
    }

    /**
     `fork`: on success the child sees exactly what the parent saw and nobody else sees a
     change; on failure no trace is left.
     */
    method Fork(parent: nat, child: nat) returns (ok: bool)
      requires Valid() && parent in m.procs && child !in m.procs
      modifies this
      ensures Valid()
      ensures forall q: Place :: q.pid != child ==> View(m, q) == View(old(m), q)
      ensures ok ==> forall page: nat :: View(m, Place(child, page)) == View(old(m), Place(parent, page))
      ensures ok ==> forall page: nat :: SlotInherited(old(m), m, parent, child, page)
      ensures ok ==> ForkedFrom(old(m), m, parent, child)
      ensures Step(old(m), m, parent)
      ensures m.procs == if ok then old(m).procs[child := old(m).procs[parent]] else old(m).procs
      ensures !ok ==> SameViews(old(m), m)
      ensures FewerShared(old(m), m) && (ok ==> m.backings == old(m).backings)
      ensures !ok ==> starved
      ensures ok ==> AccessInherited(old(m), m, parent, child)
    {
      ghost var s := m;
      NoSlots(s, child);
      ok := CopyProcess(s, parent, child);
      if ok {
        ForkComplete(s, m, parent, child, SlotsOf(s, parent));
        SameIsFewer(s, m);
        ForkShares(s, m, parent, child);
        AccessForked(s, m, parent, child);
      } else {
        AbandonChild(s, child);
      }
      ForkSteps(s, m, parent, child);
    }

    /** The address space; then the descriptor table and the thread, without which the child goes again. */
    method CopyProcess(ghost s: State, parent: nat, child: nat) returns (ok: bool)
      requires Valid() && m == s && parent in m.procs && child !in m.procs
      requires forall q :: q in s.slots ==> q.pid != child
      modifies this
      ensures Valid() && m.procs == s.procs[child := s.procs[parent]] && SameShared(s, m) && HalfForked(s, m, child)
      ensures ok ==> Forked(s, m, parent, child, SlotsOf(s, parent))
      ensures ok ==> Resided(s.resident, m.resident, child, SlotsOf(s, parent))
      ensures !ok ==> starved
    {
      assert ProcOk(m.procs[parent]);
      ProcessStep(s, child, m.procs[parent]);
      m := m.(procs := m.procs[child := m.procs[parent]]);
      ForkBegins(s, m, parent, child);
      SharedUntouched(s, m);
      ok := CopySlots(s, parent, child);
      if ok {
        ok := *;
        starved := starved || !ok;
      }
    }

    /** All slots of the parent, or as many as could be copied. */
    method CopySlots(ghost s: State, parent: nat, child: nat) returns (ok: bool)
      requires Valid() && parent in m.procs && child in m.procs && parent != child
      requires m.procs[child] == m.procs[parent] && m.slots == s.slots
      requires forall q :: q in s.slots ==> q.pid != child
      requires Forked(s, m, parent, child, {}) && SameShared(s, m) && m.resident == s.resident
      modifies this
      ensures Valid() && m.procs == old(m).procs && SameShared(s, m)
      ensures HalfForked(s, m, child)
      ensures ok ==> Forked(s, m, parent, child, SlotsOf(s, parent))
      ensures ok ==> Resided(s.resident, m.resident, child, SlotsOf(s, parent))
      ensures !ok ==> starved
    {
      var all := SlotsOf(m, parent);
      var done: set<Place> := {};
      ghost var before := m;
      while all - done != {}
        invariant done <= all && Valid() && m.procs == before.procs && Copying(s, m, parent, child, done)
        decreases all - done
      {
        var pl :| pl in all - done;
        ok := CopyNext(s, parent, child, done, pl);
        if !ok {
          return;
        }
        done := done + {pl};
      }
      assert done == all;
      ForkedHalf(s, m, parent, child, done);
      return true;
    }

    method CopyNext(ghost s: State, parent: nat, child: nat, ghost done: set<Place>, pl: Place) returns (ok: bool)
      requires Valid() && parent in m.procs && child in m.procs && parent != child && m.procs[child] == m.procs[parent]
      requires (forall q :: q in s.slots ==> q.pid != child) && (forall q :: q in done ==> q.pid == parent)
      requires Copying(s, m, parent, child, done) && pl in s.slots && pl.pid == parent && pl !in done
      modifies this
      ensures Valid() && m.procs == old(m).procs
      ensures ok ==> Copying(s, m, parent, child, done + {pl})
      ensures !ok ==> starved && SameShared(s, m) && HalfForked(s, m, child)
    {
      ghost var t := m;
      ForkNext(s, t, parent, child, done, pl);
      ok := ForkSlot(pl, child);
      SameSharedTwice(s, t, m);
      if ok {
        ForkedMore(s, t, m, parent, child, done, pl);
        ResidedMore(s.resident, t.resident, m.resident, child, done, pl);
      } else {
        ForkedHalf(s, t, parent, child, done);
        HalfMore(s, t, m, child, pl.page);
      }
    }

    /** `fork_failed`: the half-made child is torn down. */
    method AbandonChild(ghost s: State, child: nat)
      requires Valid() && child in m.procs && child !in s.procs
      requires HalfForked(s, m, child)
      requires forall q :: q in s.slots ==> q.pid != child
      requires m.procs - {child} == s.procs && SameShared(s, m)
      modifies this`m
      ensures Valid() && SameViews(s, m) && m.procs == s.procs && FewerShared(s, m)
      ensures SlotsKept(s.slots, m.slots) && m.slots.Keys == s.slots.Keys
    {
      ghost var t := m;
      ReleaseProcessPages(child);
      ghost var u := m;
      RemoveProcessStep(u, child);
      m := m.(procs := m.procs - {child});
      forall q: Place | q.pid != child
        ensures View(m, q) == View(s, q)
      {
        assert View(u, q) == View(t, q);
      }
      ForkUndone(s, m, child);
      SharedUntouched(u, m);
      SameIsFewer(u, m);
      SameIsFewer(s, t);
      FewerSharedTwice(s, t, u);
      FewerSharedTwice(s, u, m);
    }

    // ---------- mprotect ----------

    /** The entry follows the new protection; fails when a page that was inaccessible cannot be mapped again. */
    method ChangeEntry(pl: Place, prot: Prot) returns (ok: bool)
      requires pl in m.slots
      requires SlotCell(pl) in m.resident && m.slots[pl].prot != PROT_NONE ==> pl in m.pt && TableOf(pl) in m.tables
      modifies this
      ensures ok ==> m == Entered(old(m), pl, Choice(old(m), pl, prot))
      ensures !ok ==> m == old(m)
      ensures !ok ==> starved || (prot != PROT_NONE && Reopened(old(m), pl))
      ensures ok && prot != PROT_NONE && SlotCell(pl) in old(m).resident ==> !Reopened(old(m), pl)
    {
      var slot := m.slots[pl];
      ok := true;
      if SlotCell(pl) in m.resident {
        if prot != PROT_NONE {
          ok := SetEntry(pl, prot.write && (slot.source.Shared? || !slot.cow), slot.prot == PROT_NONE);
        } else if slot.prot != PROT_NONE {
          ok := UnmapPageIn(pl);
        }
      }
    }

    /** One slot. */
    method ChangeProtection(pl: Place, prot: Prot) returns (ok: bool)
      requires pl in m.slots
      requires SlotCell(pl) in m.resident && m.slots[pl].prot != PROT_NONE ==> pl in m.pt && TableOf(pl) in m.tables
      modifies this
      ensures ok ==> m == Protected(old(m), pl, prot, Choice(old(m), pl, prot))
      ensures !ok ==> m == old(m)
      ensures !ok ==> starved || (prot != PROT_NONE && Reopened(old(m), pl))
      ensures ok && prot != PROT_NONE && SlotCell(pl) in old(m).resident ==> !Reopened(old(m), pl)
    {
      ghost var s := m;
      ok := ChangeEntry(pl, prot);
      if ok {
        m := m.(slots := m.slots[pl := m.slots[pl].(prot := prot)]);
        EnteredProtected(s, pl, prot, Choice(s, pl, prot));
      }
    }

    method SetEntry(pl: Place, writable: bool, absent: bool) returns (ok: bool)
      requires SlotCell(pl) in m.resident
      requires !absent ==> pl in m.pt && TableOf(pl) in m.tables
      modifies this
      ensures ok ==> m == Mapped(old(m), pl, old(m).resident[SlotCell(pl)], writable)
      ensures ok && absent ==> pl !in old(m).pt
      ensures !ok ==> m == old(m)
      ensures !ok ==> starved || (absent && pl in old(m).pt)
    {
      ghost var s := m;
      var f := m.resident[SlotCell(pl)];
      if absent {
        ok := MapPageIn(pl, f, writable);
      } else {
        ok := RemapPage(pl, f, writable);
        assert s.tables + {TableOf(pl)} == s.tables;
      }
    }

    method ProtectSlot(pl: Place, prot: Prot) returns (ok: bool)
      requires Valid() && pl in m.slots && m.slots[pl].region.Mapping?
      requires prot.write ==> MayWrite(m.slots[pl], m.backings)
      modifies this
      ensures Valid() && SameViews(old(m), m) && SameShared(old(m), m) && m.procs == old(m).procs
      ensures ok ==> m.slots == old(m).slots[pl := old(m).slots[pl].(prot := prot)]
      ensures !ok ==> m == old(m)
      ensures !ok ==> starved || (prot != PROT_NONE && Reopened(old(m), pl))
      ensures ok && prot != PROT_NONE ==> !Reopened(old(m), pl)
      ensures OnlyEntry(old(m).pt, m.pt, pl)
    {
      ghost var s := m;
      if SlotCell(pl) in m.resident && m.slots[pl].prot != PROT_NONE {
        ProtectFacts(s, pl);
      }
      ReopenedFacts(s, pl);
      ok := ChangeProtection(pl, prot);
      if ok {
        ProtectWhole(s, pl, prot, m);
      } else {
        Unchanged(s);
      }
    }

    /** Whether every page of the range is reserved, as `mprotect` demands. */
    method AllReserved(pid: nat, address: nat, end: nat) returns (all: bool)
      requires address % PAGE == 0
      ensures all <==> Covered(m, pid, address, end)
    {
      var k := 0;
      while address + k * PAGE < end
        invariant forall j: nat :: j < k ==> Place(pid, address + j * PAGE) in MappingsIn(m, pid, address, end)
        decreases end - (address + k * PAGE)
      {
        if Place(pid, address + k * PAGE) !in MappingsIn(m, pid, address, end) {
          return false;
        }
        k := k + 1;
      }
      return true;
    }

    /** The write check over the whole range, before anything is changed. */
    method CheckWrite(range: set<Place>) returns (r: Outcome)
      requires range <= m.slots.Keys
      ensures r == Done || r == Eacces || r == Eperm
      ensures r == Done <==> MayWriteAll(m, range)
      ensures r != Done ==> Offends(m, range, r)
    {
      var done: set<Place> := {};
      while range - done != {}
        invariant done <= range
        invariant forall pl :: pl in done ==> MayWrite(m.slots[pl], m.backings)
        decreases range - done
      {
        var pl :| pl in range - done;
        if !MayWrite(m.slots[pl], m.backings) {
          assert Offender(m, pl);
          return if m.backings[m.slots[pl].source.backing].immutable then Eacces else Eperm;
        }
        done := done + {pl};
      }
      return Done;
    }

    /** `mprotect`: no byte changes; a refused call changes nothing, and a late failure stops part-way. */
    method Mprotect(pid: nat, address: nat, length: nat, prot: Prot) returns (r: Outcome)
      requires Valid()
      modifies this
      ensures Valid() && Step(old(m), m, pid) && ProtectOutcome(old(m), m, pid, address, length, prot, r, starved)
      ensures r == Done ==> ProtectedAs(m, pid, address, length, prot)
      ensures r in {Eacces, Eperm} ==> prot.write
      ensures r == Eacces ==> exists pl :: MappedIn(m, pid, address, length, pl) && Unchangeable(m, pl)
      ensures r == Eperm ==> exists pl :: MappedIn(m, pid, address, length, pl) && Frozen(m, pl) && !Unchangeable(m, pl)
      ensures r == Done && prot.write ==>
        forall pl :: MappedIn(old(m), pid, address, length, pl) ==> !Frozen(old(m), pl)
      ensures r in {Done, Eacces, Eperm} ==> AllMapped(old(m), pid, address, length)
      ensures r == Enomem && !starved && AllMapped(old(m), pid, address, length) ==>
        prot != PROT_NONE && exists pl :: MappedIn(old(m), pid, address, length, pl) && Reopened(old(m), pl)
    {
      ghost var s := m;
      r := Reprotect(pid, address, length, prot);
      if RangeOk(address, length) {
        OutcomeFrozen(s, m, pid, address, length, prot, r, starved);
        if r == Done {
          ProtectGrants(s, m, pid, address, length, prot);
        }
      }
    }

    method Reprotect(pid: nat, address: nat, length: nat, prot: Prot) returns (r: Outcome)
      requires Valid()
      modifies this
      ensures Valid() && Step(old(m), m, pid) && ProtectOutcome(old(m), m, pid, address, length, prot, r, starved)
    {
      ghost var s := m;
      Unchanged(s);
      InvisibleSteps(s, s, pid);
      if !RangeOk(address, length) {
        return Einval;
      }
      var end := address + RoundUp(length);
      var range := MappingsIn(m, pid, address, end);
      var all := AllReserved(pid, address, end);
      if !all {
        assert Reprotected(m.slots, m.slots, {}, prot);
        return Enomem;
      }
      r := ProtectChecked(range, prot);
      ProtectSteps(s, m, pid);
    }

    /** Every page of the range may be written, or none is changed. */
    method ProtectChecked(range: set<Place>, prot: Prot) returns (r: Outcome)
      requires Valid() && range <= m.slots.Keys && forall pl :: pl in range ==> m.slots[pl].region.Mapping?
      modifies this
      ensures Valid() && SameViews(old(m), m) && SameShared(old(m), m) && m.procs == old(m).procs
      ensures SameSharing(old(m).slots, m.slots) && (r == Done || r == Enomem || r == Eacces || r == Eperm)
      ensures r == Eacces || r == Eperm <==> prot.write && !MayWriteAll(old(m), range)
      ensures r == Eacces || r == Eperm ==> m == old(m) && Offends(m, range, r)
      ensures r == Done ==> Reprotected(old(m).slots, m.slots, range, prot)
      ensures r == Enomem ==> exists done :: done <= range && Reprotected(old(m).slots, m.slots, done, prot)
      ensures r == Enomem ==> starved || (prot != PROT_NONE && AnyReopened(old(m), range))
      ensures r == Done && prot != PROT_NONE ==> !AnyReopened(old(m), range)
    {
      if prot.write {
        r := CheckWrite(range);
        if r != Done {
          Unchanged(m);
          return;
        }
      }
      r := ProtectRange(range, prot);
    }

    method ProtectRange(range: set<Place>, prot: Prot) returns (r: Outcome)
      requires Valid() && range <= m.slots.Keys && forall pl :: pl in range ==> m.slots[pl].region.Mapping?
      requires prot.write ==> MayWriteAll(m, range)
      modifies this
      ensures Valid() && SameViews(old(m), m) && SameShared(old(m), m) && m.procs == old(m).procs
      ensures SameSharing(old(m).slots, m.slots) && (r == Done || r == Enomem)
      ensures r == Done ==> Reprotected(old(m).slots, m.slots, range, prot)
      ensures r == Enomem ==> exists done :: done <= range && Reprotected(old(m).slots, m.slots, done, prot)
      ensures r == Enomem ==> starved || (prot != PROT_NONE && AnyReopened(old(m), range))
      ensures r == Done && prot != PROT_NONE ==> !AnyReopened(old(m), range)
    {
      ghost var s := m;
      Unchanged(s);
      var done: set<Place> := {};
      while range - done != {}
        invariant Valid() && ProtectedSome(s, m, range, done, prot)
        decreases range - done
      {
        var pl :| pl in range - done;
        var ok := ProtectNext(s, range, done, pl, prot);
        if !ok {
          return Enomem;
        }
        done := done + {pl};
      }
      forall pl | pl in range
        ensures pl in done
      {
        assert pl !in range - done;
      }
      assert done == range;
      return Done;
    }

    method ProtectNext(ghost s: State, ghost range: set<Place>, ghost done: set<Place>, pl: Place, prot: Prot)
      returns (ok: bool)
      requires Valid() && ProtectedSome(s, m, range, done, prot) && pl in range - done && range <= s.slots.Keys
      requires s.slots[pl].region.Mapping? && (prot.write ==> MayWrite(s.slots[pl], s.backings))
      modifies this
      ensures Valid() && ProtectedSome(s, m, range, if ok then done + {pl} else done, prot)
      ensures !ok ==> starved || (prot != PROT_NONE && AnyReopened(s, range))
    {
      ghost var t := m;
      ok := ProtectSlot(pl, prot);
      ReopenedBefore(s, t, range, done, prot, pl);
      if ok {
        ProtectedMore(s, t, m, range, done, pl, prot);
      }
    }

  }
}

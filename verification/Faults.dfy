/**
 What page faults do to the memory state: every way a fault is resolved keeps the
 invariant and is invisible to all processes.
 */
module Faults {
  import opened Bytes
  import opened Ledger
  import opened Machine
  import opened Steps
  import opened Moves
  import opened Slotting
  import opened Changes
  import Elf

  /** A copy-on-write slot has a frame to copy and may be written after the copy. */
  ghost predicate CowsOk(slots: Slots, resident: Residents) {
    forall pl :: pl in slots && slots[pl].cow ==>
      SlotCell(pl) in resident && !slots[pl].source.Shared? && (!slots[pl].region.Mapping? ==> slots[pl].prot.write)
  }

  /** No entry is lost and none loses write permission. */
  ghost predicate PtGrows(pt: map<Place, Pte>, pt': map<Place, Pte>) {
    forall pl :: pl in pt ==> pl in pt' && (pt[pl].writable ==> pt'[pl].writable)
  }

  ghost predicate Good(s: State) {
    Inv(s) && CowsOk(s.slots, s.resident)
  }

  /** The shared backings are the same, byte for byte. */
  ghost predicate SameShared(s: State, t: State) {
    t.backings == s.backings && forall b: nat, k: nat :: BackingPage(t, b, k) == BackingPage(s, b, k)
  }

  /** Whether a place shows a page of a shared backing. */
  ghost predicate IsShared(slots: Slots, pl: Place) {
    pl in slots && slots[pl].source.Shared?
  }

  /** The page of a shared backing that a place shows. */
  ghost function SharedSource(slots: Slots, pl: Place): Option<Source> {
    if IsShared(slots, pl) then Some(slots[pl].source) else None
  }

  ghost predicate SameSharing(slots: Slots, slots': Slots) {
    forall pl :: SharedSource(slots', pl) == SharedSource(slots, pl)
  }

  /** What a resolved fault leaves: the page is mapped, and writably if that is what was asked for and allowed. */
  ghost predicate Served(s: State, pl: Place, t: State, write: bool) {
    pl in t.pt && (write && (pl in s.slots ==> s.slots[pl].prot.write) ==> t.pt[pl].writable)
  }

  /** A page can be accessed afterwards in every way in which it could be before. */
  ghost predicate PlaceEases(s: State, t: State, q: Place) {
    && (q in s.slots ==> q in t.slots && SlotEases(s.slots[q], t.slots[q]))
    && (q in t.slots && q !in s.slots ==> t.slots[q].prot.write && InStack(q.page))
    && (SlotCell(q) in s.resident ==> SlotCell(q) in t.resident)
    && (q in t.pt && q !in s.pt ==> Served(s, q, t, true))
    && (q in s.slots && s.slots[q].cow && q in t.slots && !t.slots[q].cow ==> q in t.pt && t.pt[q].writable)
  }

  ghost predicate SlotEases(x: Slot, y: Slot) {
    y.region == x.region && (x.prot.write ==> y.prot.write) && (x.prot != PROT_NONE ==> y.prot != PROT_NONE)
  }

  ghost predicate ProcEases(x: Process, y: Process) {
    y.program == x.program && y.heapBreak == x.heapBreak && (x.stackBottom != 0 ==> y.stackBottom != 0)
  }

  ghost predicate ProcsEase(procs: map<nat, Process>, procs': map<nat, Process>) {
    procs'.Keys == procs.Keys && forall p :: p in procs ==> ProcEases(procs[p], procs'[p])
  }

  ghost predicate Eases(s: State, t: State) {
    ProcsEase(s.procs, t.procs) && forall q {:trigger PlaceEases(s, t, q)} :: PlaceEases(s, t, q)
  }

  /**
   What a fault may do: nothing that a process can see, nothing to the shared backings,
   no page-table entry is lost or weakened, and no access becomes impossible.
   */
  ghost predicate Invisible(s: State, t: State) {
    && Good(t) && SameViews(s, t) && SameShared(s, t) && PtGrows(s.pt, t.pt)
    && SameSharing(s.slots, t.slots) && Eases(s, t)
  }

  lemma SlotsEase(s: State, t: State)
    requires t.slots == s.slots && t.pt == s.pt && ProcsEase(s.procs, t.procs)
    requires forall q :: SlotCell(q) in s.resident ==> SlotCell(q) in t.resident
    ensures Eases(s, t)
  {
    forall q
      ensures PlaceEases(s, t, q)
    {
    }
  }

  lemma EasesTwice(s: State, t: State, u: State)
    requires Eases(s, t) && Eases(t, u) && PtGrows(t.pt, u.pt)
    ensures Eases(s, u)
  {
    forall q
      ensures PlaceEases(s, u, q)
    {
      assert PlaceEases(s, t, q) && PlaceEases(t, u, q);
    }
  }

  lemma SharedByHeld(s: State, t: State)
    requires t.backings == s.backings
    requires forall c: Cell :: c.BackingCell? ==> Held(t.frames, t.resident, c) == Held(s.frames, s.resident, c)
    ensures SameShared(s, t)
  {
    forall b: nat, k: nat
      ensures BackingPage(t, b, k) == BackingPage(s, b, k)
    {
      assert Held(t.frames, t.resident, BackingCell(b, k)) == Held(s.frames, s.resident, BackingCell(b, k));
    }
  }

  lemma SharedUntouched(s: State, t: State)
    requires t.backings == s.backings && t.frames == s.frames && t.resident == s.resident
    ensures SameShared(s, t)
  {
    SharedByHeld(s, t);
  }

  lemma UntouchedViews(s: State, t: State)
    requires t.frames == s.frames && t.resident == s.resident && t.slots == s.slots
    requires t.backings == s.backings && t.procs == s.procs
    ensures SameViews(s, t)
  {
    ViewKept0(s, t);
  }

  lemma SameSharedTwice(s: State, t: State, u: State)
    requires SameShared(s, t) && SameShared(t, u)
    ensures SameShared(s, u)
  {
    forall b: nat, k: nat
      ensures BackingPage(u, b, k) == BackingPage(s, b, k)
    {
      assert BackingPage(t, b, k) == BackingPage(s, b, k);
    }
  }

  lemma PromoteEntries(s: State, pl: Place)
    requires CowsOk(s.slots, s.resident) && CanPromote(s, pl)
    ensures CowsOk(Promoted(s, pl).slots, s.resident) && PtGrows(s.pt, Promoted(s, pl).pt)
    ensures SameSharing(s.slots, Promoted(s, pl).slots)
    ensures Eases(s, Promoted(s, pl))
  {
    forall q
      ensures PlaceEases(s, Promoted(s, pl), q)
    {
    }
  }

  lemma PromoteStep(s: State, pl: Place)
    requires Good(s) && CanPromote(s, pl)
    ensures Invisible(s, Promoted(s, pl))
  {
    PromoteInv(s, pl);
    PromoteEntries(s, pl);
    RecowViews(s, Promoted(s, pl), pl, false);
    SharedUntouched(s, Promoted(s, pl));
  }

  lemma CowFacts(s: State, pl: Place)
    requires Good(s) && pl in s.slots && s.slots[pl].cow && s.slots[pl].prot.write
    ensures !s.slots[pl].source.Shared?
    ensures SlotCell(pl) in s.resident && s.resident[SlotCell(pl)] in s.refs && s.resident[SlotCell(pl)] in s.frames
    ensures s.refs[s.resident[SlotCell(pl)]] > 0
    ensures pl in s.pt && TableOf(pl) in s.tables && s.pt[pl].frame == s.resident[SlotCell(pl)]
  {
    assert pl in s.pt;
    assert PteOk(pl, s.pt[pl], s.tables, s.slots, s.resident);
    TakeConserves(s.resident, s.refs, s.frames, SlotCell(pl));
  }

  lemma Unchanged(s: State)
    requires Good(s)
    ensures Invisible(s, s)
  {
    SlotsEase(s, s);
  }

  lemma CopyEntries(s: State, pl: Place, f: nat)
    requires CowsOk(s.slots, s.resident) && CanCopy(s, pl, f)
    ensures CowsOk(Copied(s, pl, f).slots, Copied(s, pl, f).resident) && PtGrows(s.pt, Copied(s, pl, f).pt)
    ensures SameSharing(s.slots, Copied(s, pl, f).slots)
    ensures Eases(s, Copied(s, pl, f))
  {
    forall q
      ensures PlaceEases(s, Copied(s, pl, f), q)
    {
    }
  }

  lemma CopyShared(s: State, pl: Place, f: nat)
    requires FramesConserved(s.resident, s.refs, s.frames) && CanCopy(s, pl, f)
    ensures SameShared(s, Copied(s, pl, f))
  {
    var c := SlotCell(pl);
    var e := Released(s, c);
    TakeHeld(s.resident, s.refs, s.frames, c);
    CopyUnheld(s, pl, f);
    FillHeld(e.frames, e.resident, c, f, s.frames[s.resident[c]]);
    SharedByHeld(s, Copied(s, pl, f));
  }

  lemma CopyStep(s: State, pl: Place, f: nat)
    requires Good(s) && CanCopy(s, pl, f)
    ensures Invisible(s, Copied(s, pl, f))
  {
    CopyInv(s, pl, f);
    CopyEntries(s, pl, f);
    CopyViews(s, pl, f);
    CopyShared(s, pl, f);
  }

  // ---------- First touch of a page ----------

  /** A slot without a frame has no page-table entry and is not copy-on-write. */
  lemma AbsentFacts(s: State, pl: Place)
    requires Good(s) && SlotCell(pl) !in s.resident
    ensures pl !in s.pt && (pl in s.slots ==> !s.slots[pl].cow)
  {
    assert pl in s.pt ==> PteOk(pl, s.pt[pl], s.tables, s.slots, s.resident);
  }

  lemma CommitEntries(s: State, pl: Place, f: nat, content: Page, writable: bool)
    requires CowsOk(s.slots, s.resident) && pl !in s.pt && (pl in s.slots && s.slots[pl].prot.write ==> writable)
    requires pl in s.slots
    ensures var t := Committed(s, pl, f, content, writable); CowsOk(t.slots, t.resident) && PtGrows(s.pt, t.pt)
    ensures Eases(s, Committed(s, pl, f, content, writable))
  {
    forall q
      ensures PlaceEases(s, Committed(s, pl, f, content, writable), q)
    {
    }
  }

  lemma CommitShared(s: State, pl: Place, f: nat, content: Page, writable: bool)
    requires SlotCell(pl) !in s.resident && Unheld(s.resident, f)
    ensures SameShared(s, Committed(s, pl, f, content, writable))
  {
    FillHeld(s.frames, s.resident, SlotCell(pl), f, content);
    SharedByHeld(s, Committed(s, pl, f, content, writable));
  }

  lemma CommitStep(s: State, pl: Place, f: nat, content: Page)
    requires Good(s) && pl in s.slots && SlotCell(pl) !in s.resident && !s.slots[pl].source.Shared?
    requires Fresh(s, f) && View(s, pl) == Some(content)
    ensures Invisible(s, Committed(s, pl, f, content, s.slots[pl].prot.write))
  {
    var w := s.slots[pl].prot.write;
    AbsentFacts(s, pl);
    CommitInv(s, pl, f, content, w);
    CommitEntries(s, pl, f, content, w);
    CommitViews(s, pl, f, content, w);
    CommitShared(s, pl, f, content, w);
  }

  // ---------- Shared mappings ----------

  lemma AttachEntries(s: State, pl: Place, f: nat, mapped: bool, writable: bool)
    requires CowsOk(s.slots, s.resident) && pl !in s.pt && f in s.refs && pl in s.slots
    requires (s.slots[pl].prot.write ==> writable)
    ensures var t := Attached(s, pl, f, mapped, writable); CowsOk(t.slots, t.resident) && PtGrows(s.pt, t.pt)
    ensures Eases(s, Attached(s, pl, f, mapped, writable))
  {
    forall q
      ensures PlaceEases(s, Attached(s, pl, f, mapped, writable), q)
    {
    }
  }

  lemma JoinShared(s: State, c: Cell, f: nat, t: State)
    requires f in s.frames && !c.BackingCell?
    requires t.frames == s.frames && t.resident == s.resident[c := f] && t.backings == s.backings
    ensures SameShared(s, t)
  {
    JoinHeld(s.frames, s.resident, c, f);
    SharedByHeld(s, t);
  }

  /** Every holder of the frame of a shared page stands for that page. */
  lemma SharedJoin(s: State, pl: Place)
    requires Good(s) && pl in s.slots && SlotCell(pl) !in s.resident && s.slots[pl].source.Shared?
    requires BackingCell(s.slots[pl].source.backing, s.slots[pl].source.index) in s.resident
    ensures CanJoin(s.resident, s.slots, SlotCell(pl),
                    s.resident[BackingCell(s.slots[pl].source.backing, s.slots[pl].source.index)])
  {
    var c := BackingCell(s.slots[pl].source.backing, s.slots[pl].source.index);
    JoinBeside(s.resident, s.slots, SlotCell(pl), c);
  }

  /** A cell may join the holders of a frame if it could stand for the same page as one of them. */
  lemma JoinBeside(resident: Residents, slots: Slots, c: Cell, d: Cell)
    requires Separated(resident, slots) && SharedAgree(resident, slots)
    requires c !in resident && d in resident && !Owns(slots, c) && !Owns(slots, d) && Key(slots, c) == Key(slots, d)
    requires Key(slots, c).Some? ==> d.BackingCell?
    ensures CanJoin(resident, slots, c, resident[d])
  {
    forall e | e in resident && resident[e] == resident[d]
      ensures Key(slots, e) == Key(slots, c) && !Owns(slots, e)
    {
    }
  }

  lemma FrameKnown(s: State, c: Cell)
    requires FramesConserved(s.resident, s.refs, s.frames) && c in s.resident
    ensures s.resident[c] in s.refs && s.resident[c] in s.frames && s.refs[s.resident[c]] > 0
  {
    TakeConserves(s.resident, s.refs, s.frames, c);
  }

  lemma SharedFacts(s: State, pl: Place)
    requires Good(s) && pl in s.slots && s.slots[pl].source.Shared?
    ensures s.slots[pl].source.backing in s.backings && s.backings[s.slots[pl].source.backing].shared
    ensures s.frames.Keys == s.refs.Keys && !s.slots[pl].region.Tracked?
    ensures forall c :: c in s.resident ==> s.resident[c] in s.refs && s.refs[s.resident[c]] > 0
  {
    assert SlotOk(pl, s.slots[pl], s.backings, s.procs);
  }

  /** The backing has the page already: the slot takes a further reference to it. */
  lemma SharedStep(s: State, pl: Place, f: nat)
    requires Good(s) && pl in s.slots && SlotCell(pl) !in s.resident && s.slots[pl].source.Shared?
    requires BackingCell(s.slots[pl].source.backing, s.slots[pl].source.index) in s.resident
    requires f == s.resident[BackingCell(s.slots[pl].source.backing, s.slots[pl].source.index)]
    requires f in s.refs
    ensures Invisible(s, Attached(s, pl, f, true, s.slots[pl].prot.write))
  {
    var c := BackingCell(s.slots[pl].source.backing, s.slots[pl].source.index);
    var w := s.slots[pl].prot.write;
    AbsentFacts(s, pl);
    FrameKnown(s, c);
    SharedJoin(s, pl);
    AttachInv(s, pl, f, true, w);
    AttachEntries(s, pl, f, true, w);
    SharedView(s, pl);
    AttachViews(s, pl, f, true, w);
    JoinShared(s, SlotCell(pl), f, Attached(s, pl, f, true, w));
  }

  lemma SharedView(s: State, pl: Place)
    requires pl in s.slots && SlotCell(pl) !in s.resident && s.slots[pl].source.Shared? && !s.slots[pl].region.Tracked?
    ensures View(s, pl) == Some(BackingPage(s, s.slots[pl].source.backing, s.slots[pl].source.index))
  {
  }

  /** The backing gets the page first. */
  lemma BackingFillStep(s: State, b: nat, k: nat, f: nat)
    requires Good(s) && Fresh(s, f)
    requires b in s.backings && s.backings[b].shared && BackingCell(b, k) !in s.resident
    ensures Invisible(s, Filled(s, BackingCell(b, k), f, ZeroPage()))
  {
    BackingFillInv(s, b, k, f);
    BackingFillViews(s, b, k, f);
    FillEntries(s, BackingCell(b, k), f);
    BackingFillShared(s, b, k, f);
    SlotsEase(s, Filled(s, BackingCell(b, k), f, ZeroPage()));
  }

  lemma BackingFillShared(s: State, b: nat, k: nat, f: nat)
    requires BackingCell(b, k) !in s.resident && Unheld(s.resident, f)
    ensures SameShared(s, Filled(s, BackingCell(b, k), f, ZeroPage()))
  {
    var c := BackingCell(b, k);
    var t := Filled(s, c, f, ZeroPage());
    FillHeld(s.frames, s.resident, c, f, ZeroPage());
    forall b': nat, k': nat
      ensures BackingPage(t, b', k') == BackingPage(s, b', k')
    {
      var d := BackingCell(b', k');
      assert d != c ==> Held(t.frames, t.resident, d) == Held(s.frames, s.resident, d);
    }
  }

  lemma FillEntries(s: State, c: Cell, f: nat)
    requires CowsOk(s.slots, s.resident) && c !in s.resident
    ensures CowsOk(s.slots, s.resident[c := f]) && PtGrows(s.pt, s.pt)
  {
  }

  lemma InvisibleTwice(s: State, t: State, u: State)
    requires Invisible(s, t) && Invisible(t, u)
    ensures Invisible(s, u)
  {
    SameViewsTwice(s, t, u);
    SameSharedTwice(s, t, u);
    PtGrowsTwice(s.pt, t.pt, u.pt);
    EasesTwice(s, t, u);
  }

  lemma SameViewsTwice(s: State, t: State, u: State)
    requires SameViews(s, t) && SameViews(t, u)
    ensures SameViews(s, u)
  {
    forall pl
      ensures View(u, pl) == View(s, pl)
    {
      assert View(t, pl) == View(s, pl);
    }
  }

  lemma PtGrowsTwice(a: map<Place, Pte>, b: map<Place, Pte>, c: map<Place, Pte>)
    requires PtGrows(a, b) && PtGrows(b, c)
    ensures PtGrows(a, c)
  {
  }

  // ---------- Image pages ----------

  /** A page of the image that has no frame yet. */
  ghost predicate ImagePage(s: State, pl: Place) {
    && pl in s.slots && s.slots[pl].region.Tracked? && !InStack(pl.page) && SlotCell(pl) !in s.resident
    && pl.pid in s.procs && s.procs[pl.pid].program.Program? && s.procs[pl.pid].program.base <= pl.page
  }

  ghost predicate Unloaded(s: State, pl: Place) {
    ImagePage(s, pl) && Elf.ValidImage(s.procs[pl.pid].program.image)
  }

  lemma ImagePageUnloaded(s: State, pl: Place)
    requires Good(s) && ImagePage(s, pl)
    ensures Unloaded(s, pl) && s.slots[pl].source.Anonymous?
  {
    LoadFacts(s, pl);
  }

  ghost function ImageOf(s: State, pl: Place): Elf.Image
    requires ImagePage(s, pl)
  {
    s.procs[pl.pid].program.image
  }

  ghost function OffsetOf(s: State, pl: Place): nat
    requires ImagePage(s, pl)
  {
    pl.page - s.procs[pl.pid].program.base
  }

  lemma UnloadedView(s: State, pl: Place)
    requires Unloaded(s, pl)
    ensures View(s, pl) == Elf.LazyPage(ImageOf(s, pl), s.procs[pl.pid].program.base, OffsetOf(s, pl))
  {
  }

  /** Page sharing is sound: the cached frame has the bytes a fresh load would give this process. */
  lemma CachedView(s: State, pl: Place)
    requires Unloaded(s, pl) && CacheSound(s.frames, s.resident)
    requires CacheCell(ImageOf(s, pl), OffsetOf(s, pl)) in s.resident
    requires s.resident[CacheCell(ImageOf(s, pl), OffsetOf(s, pl))] in s.frames
    ensures View(s, pl) == Some(s.frames[s.resident[CacheCell(ImageOf(s, pl), OffsetOf(s, pl))]])
  {
    var im, off := ImageOf(s, pl), OffsetOf(s, pl);
    var c := CacheCell(im, off);
    assert CacheOk(c.image, c.off, Held(s.frames, s.resident, c));
    UnloadedView(s, pl);
    Elf.UnrelocatedPageIsShared(im, 0, s.procs[pl.pid].program.base, off);
  }

  lemma CachedStep(s: State, pl: Place, f: nat)
    requires Good(s) && Unloaded(s, pl) && !s.slots[pl].prot.write && s.slots[pl].source.Anonymous?
    requires CacheCell(ImageOf(s, pl), OffsetOf(s, pl)) in s.resident
    requires f == s.resident[CacheCell(ImageOf(s, pl), OffsetOf(s, pl))] && f in s.refs
    ensures Invisible(s, Attached(s, pl, f, true, false))
  {
    var c := CacheCell(ImageOf(s, pl), OffsetOf(s, pl));
    AbsentFacts(s, pl);
    FrameKnown(s, c);
    JoinBeside(s.resident, s.slots, SlotCell(pl), c);
    AttachInv(s, pl, f, true, false);
    AttachEntries(s, pl, f, true, false);
    CachedView(s, pl);
    AttachViews(s, pl, f, true, false);
    JoinShared(s, SlotCell(pl), f, Attached(s, pl, f, true, false));
  }

  lemma LoadFacts(s: State, pl: Place)
    requires Good(s) && pl in s.slots
    ensures pl.pid in s.procs && pl.page % PAGE == 0 && s.frames.Keys == s.refs.Keys
    ensures s.slots[pl].region.Tracked? ==> s.slots[pl].source.Anonymous?
    ensures ProcOk(s.procs[pl.pid])
  {
    assert SlotOk(pl, s.slots[pl], s.backings, s.procs);
  }

  /** A page loaded at any base may be cached for every base if it has no relocations. */
  lemma CacheableLoad(im: Elf.Image, base: nat, off: nat)
    requires Elf.ValidImage(im) && !Elf.HasRelocations(im, off) && Elf.LazyPage(im, base, off).Some?
    ensures CacheOk(im, off, Some(Elf.LazyPage(im, base, off).value))
  {
    Elf.UnrelocatedPageIsShared(im, 0, base, off);
  }

  /** The cache takes a reference to a freshly loaded read-only page. */
  lemma CacheStep(s: State, pl: Place, im: Elf.Image, off: nat, f: nat)
    requires Good(s) && pl in s.slots && s.slots[pl].region.Tracked? && !s.slots[pl].prot.write
    requires s.slots[pl].source.Anonymous?
    requires SlotCell(pl) in s.resident && s.resident[SlotCell(pl)] == f && f in s.refs && f in s.frames
    requires CacheCell(im, off) !in s.resident && CacheOk(im, off, Some(s.frames[f]))
    ensures Invisible(s, Joined(s, CacheCell(im, off), f))
  {
    JoinBeside(s.resident, s.slots, CacheCell(im, off), SlotCell(pl));
    CacheFillInv(s, im, off, f);
    CacheFillViews(s, CacheCell(im, off), f);
    FillEntries(s, CacheCell(im, off), f);
    JoinShared(s, CacheCell(im, off), f, Joined(s, CacheCell(im, off), f));
    SlotsEase(s, Joined(s, CacheCell(im, off), f));
  }

  /** The cache drops an entry, for example to make room. */
  lemma UncacheStep(s: State, c: Cell)
    requires Good(s) && c in s.resident && c.CacheCell? && CanRelease(s, c)
    ensures Invisible(s, Released(s, c))
  {
    ReleaseInv(s, c);
    CacheReleaseViews(s, c);
    UncacheEntries(s, c);
    ReleaseShared(s, c);
    SlotsEase(s, Released(s, c));
  }

  lemma ReleaseShared(s: State, c: Cell)
    requires FramesConserved(s.resident, s.refs, s.frames) && CanRelease(s, c) && !c.BackingCell?
    ensures SameShared(s, Released(s, c))
  {
    ReleaseHeld(s, c);
    SharedByHeld(s, Released(s, c));
  }

  lemma UncacheEntries(s: State, c: Cell)
    requires CowsOk(s.slots, s.resident) && !c.SlotCell?
    ensures CowsOk(s.slots, s.resident - {c}) && PtGrows(s.pt, s.pt)
  {
  }

  // ---------- Stack pages and inaccessible pages ----------

  const STACK_SLOT: Slot := Slot(Tracked, Prot(true, true, false), false, Anonymous)

  /** Tracking a fresh page of the stack window changes nothing anyone sees: it reads as zero already. */
  lemma StackSlotStep(s: State, pl: Place)
    requires Good(s) && pl !in s.slots && pl.pid in s.procs && InStack(pl.page) && pl.page % PAGE == 0
    ensures Invisible(s, Slotted(s, pl, STACK_SLOT, None))
    ensures SlotCell(pl) !in s.resident
  {
    var t := Slotted(s, pl, STACK_SLOT, None);
    SlotInv(s, pl, STACK_SLOT, None);
    SourcesAreKnown(s.slots, s.backings, s.procs);
    SlotViews(s, pl, STACK_SLOT, None, t);
    StackSlotEntries(s, pl);
    StackSlotViews(s, t, pl);
    SharedUntouched(s, t);
    StackSlotEases(s, t, pl);
  }

  lemma StackSlotEases(s: State, t: State, pl: Place)
    requires t.slots == s.slots[pl := STACK_SLOT] && t.pt == s.pt && t.procs == s.procs && t.resident == s.resident
    requires pl in s.slots ==> s.slots[pl].region.Tracked? && !s.slots[pl].cow
    requires InStack(pl.page)
    ensures Eases(s, t)
  {
    forall q
      ensures PlaceEases(s, t, q)
    {
    }
  }

  lemma StackSlotEntries(s: State, pl: Place)
    requires CowsOk(s.slots, s.resident) && !IsShared(s.slots, pl)
    ensures CowsOk(s.slots[pl := STACK_SLOT], s.resident) && PtGrows(s.pt, s.pt)
    ensures SameSharing(s.slots, s.slots[pl := STACK_SLOT])
  {
  }

  lemma StackSlotViews(s: State, t: State, pl: Place)
    requires pl !in s.slots && pl.pid in s.procs && InStack(pl.page)
    requires t == Slotted(s, pl, STACK_SLOT, None) && SlotCell(pl) !in s.resident
    requires forall q :: q != pl ==> View(t, q) == View(s, q)
    ensures SameViews(s, t)
  {
    assert View(t, pl) == Some(ZeroPage()) == View(s, pl);
  }

  lemma StackView(s: State, pl: Place)
    requires pl in s.slots && s.slots[pl].region.Tracked? && InStack(pl.page) && pl.pid in s.procs
    requires SlotCell(pl) !in s.resident
    ensures View(s, pl) == Some(ZeroPage())
  {
  }

  /** Re-tracking an untouched page of the stack window as a stack page. */
  lemma RetrackViews(s: State, pl: Place)
    requires pl in s.slots && s.slots[pl].region.Tracked? && s.slots[pl].source.Anonymous?
    ensures SameViews(s, s.(slots := s.slots[pl := STACK_SLOT]))
  {
    ViewKept0(s, s.(slots := s.slots[pl := STACK_SLOT]));
  }

  lemma RetrackStep(s: State, pl: Place)
    requires Good(s) && pl in s.slots && s.slots[pl].region.Tracked? && InStack(pl.page) && SlotCell(pl) !in s.resident
    ensures Invisible(s, s.(slots := s.slots[pl := STACK_SLOT]))
  {
    assert SlotOk(pl, s.slots[pl], s.backings, s.procs);
    SlotChange(s, pl, STACK_SLOT);
    SlotChangeOk(s, pl, STACK_SLOT);
    SlotChangeSeparates(s, pl, STACK_SLOT);
    StackSlotEntries(s, pl);
    RetrackPtes(s, pl);
    RetrackViews(s, pl);
    SharedUntouched(s, s.(slots := s.slots[pl := STACK_SLOT]));
    StackSlotEases(s, s.(slots := s.slots[pl := STACK_SLOT]), pl);
  }

  /** A page of the stack window is tracked and gets a zero frame: it reads as zero already. */
  lemma StackGrows(s: State, pl: Place, f: nat)
    requires Good(s) && pl.pid in s.procs && InStack(pl.page) && pl.page % PAGE == 0 && SlotCell(pl) !in s.resident
    requires (pl in s.slots ==> s.slots[pl].region.Tracked?) && Fresh(s, f)
    ensures Invisible(s, Planted(s, pl, STACK_SLOT, f, ZeroPage()))
  {
    var u := s.(slots := s.slots[pl := STACK_SLOT]);
    if pl in s.slots {
      RetrackStep(s, pl);
    } else {
      StackSlotStep(s, pl);
    }
    StackView(u, pl);
    CommitStep(u, pl, f, ZeroPage());
    InvisibleTwice(s, u, Planted(s, pl, STACK_SLOT, f, ZeroPage()));
  }

  lemma RetrackPtes(s: State, pl: Place)
    requires PtesSound(s.pt, s.tables, s.slots, s.resident) && PtesComplete(s.pt, s.slots, s.resident)
    requires SlotCell(pl) !in s.resident
    ensures PtesSound(s.pt, s.tables, s.slots[pl := STACK_SLOT], s.resident)
    ensures PtesComplete(s.pt, s.slots[pl := STACK_SLOT], s.resident)
  {
    assert pl in s.pt ==> PteOk(pl, s.pt[pl], s.tables, s.slots, s.resident);
  }

  /** A committed PROT_NONE page that is touched becomes readable again. */
  lemma RestoreStep(s: State, pl: Place)
    requires Good(s) && pl in s.slots && SlotCell(pl) in s.resident && pl !in s.pt
    ensures Invisible(s, Mapped(s, pl, s.resident[SlotCell(pl)], false))
  {
    InaccessibleFacts(s, pl);
    RestorePtes(s, pl);
    UntouchedViews(s, Mapped(s, pl, s.resident[SlotCell(pl)], false));
    SharedUntouched(s, Mapped(s, pl, s.resident[SlotCell(pl)], false));
  }

  lemma RestorePtes(s: State, pl: Place)
    requires PtesSound(s.pt, s.tables, s.slots, s.resident) && PtesComplete(s.pt, s.slots, s.resident)
    requires pl in s.slots && SlotCell(pl) in s.resident && pl !in s.pt
    ensures var t := Mapped(s, pl, s.resident[SlotCell(pl)], false);
      PtesSound(t.pt, t.tables, s.slots, s.resident) && PtesComplete(t.pt, s.slots, s.resident) && PtGrows(s.pt, t.pt)
    ensures s.slots[pl].prot == PROT_NONE ==> Eases(s, Mapped(s, pl, s.resident[SlotCell(pl)], false))
  {
    var t := Mapped(s, pl, s.resident[SlotCell(pl)], false);
    if s.slots[pl].prot == PROT_NONE {
      forall q
        ensures PlaceEases(s, t, q)
      {
      }
    }
  }

  /** A leaf table that was allocated for nothing is harmless. */
  lemma TablesStep(s: State, table: Place)
    requires Good(s)
    ensures Invisible(s, s.(tables := s.tables + {table}))
  {
    TablesPtes(s, table);
    ViewKept0(s, s.(tables := s.tables + {table}));
    SharedUntouched(s, s.(tables := s.tables + {table}));
    SlotsEase(s, s.(tables := s.tables + {table}));
  }

  lemma TablesPtes(s: State, table: Place)
    requires PtesSound(s.pt, s.tables, s.slots, s.resident)
    ensures PtesSound(s.pt, s.tables + {table}, s.slots, s.resident) && PtGrows(s.pt, s.pt)
  {
  }

  lemma ResizeKeeps(s: State, pid: nat, p: Process)
    requires Good(s) && pid in s.procs && p.program == s.procs[pid].program && ProcOk(p)
    ensures Good(Resized(s, pid, p)) && SameViews(s, Resized(s, pid, p)) && SameShared(s, Resized(s, pid, p))
  {
    ResizeInv(s, pid, p);
    SharedUntouched(s, Resized(s, pid, p));
  }

  lemma ResizeStep(s: State, pid: nat, p: Process)
    requires Good(s) && pid in s.procs && ProcEases(s.procs[pid], p) && ProcOk(p)
    ensures Invisible(s, Resized(s, pid, p))
  {
    ResizeKeeps(s, pid, p);
    SlotsEase(s, Resized(s, pid, p));
  }

  // ---------- What the invariant says about an absent page ----------

  /** Tracked and heap pages that have a frame are always mapped, so an absent one has none. */
  lemma AlwaysMapped(s: State, pl: Place)
    requires Good(s) && pl in s.slots && !s.slots[pl].region.Mapping? && pl !in s.pt
    ensures SlotCell(pl) !in s.resident && s.slots[pl].source.Anonymous?
    ensures s.slots[pl].region.Heap? ==> View(s, pl) == Some(ZeroPage())
  {
    assert SlotOk(pl, s.slots[pl], s.backings, s.procs);
  }

  lemma StackFacts(s: State, pl: Place)
    requires Good(s) && InStack(pl.page) && pl !in s.pt
    ensures SlotCell(pl) !in s.resident
    ensures pl in s.slots ==> s.slots[pl].region.Tracked? && s.slots[pl].source.Anonymous?
  {
    assert pl in s.slots ==> SlotOk(pl, s.slots[pl], s.backings, s.procs);
    assert SlotCell(pl) in s.resident ==> CellOk(SlotCell(pl), s.slots, s.backings);
  }

  /** Only a PROT_NONE page can have a frame and no page-table entry. */
  lemma InaccessibleFacts(s: State, pl: Place)
    requires Good(s) && pl in s.slots && SlotCell(pl) in s.resident && pl !in s.pt
    ensures s.slots[pl].prot == PROT_NONE
  {
  }

  lemma SnapshotFacts(s: State, pl: Place)
    requires Good(s) && pl in s.slots && s.slots[pl].source.Snapshot? && SlotCell(pl) !in s.resident
    ensures s.slots[pl].source.backing in s.backings
    ensures View(s, pl) == Some(SnapshotPage(s.backings[s.slots[pl].source.backing].data, s.slots[pl].source.offset))
  {
    assert SlotOk(pl, s.slots[pl], s.backings, s.procs);
  }

  // ---------- When a fault is resolved ----------

  /** An absent page of a mapping: a page that lost its entry with its last permission gets one back. */
  ghost predicate MappingPermits(s: State, pl: Place, write: bool)
    requires pl in s.slots
  {
    SlotCell(pl) in s.resident || (s.slots[pl].prot != PROT_NONE && (write ==> s.slots[pl].prot.write))
  }

  ghost predicate SlotPermits(s: State, pl: Place, address: nat, write: bool)
    requires pl in s.slots
  {
    match s.slots[pl].region
    case Mapping => MappingPermits(s, pl, write)
    case Tracked => (write ==> s.slots[pl].prot.write) && View(s, pl).Some?
    case Heap => pl.pid in s.procs && HEAP_START <= address < s.procs[pl.pid].heapBreak
  }

  /** The accesses that the fault handler makes good. */
  ghost predicate Permitted(s: State, pid: nat, address: nat, write: bool)
    requires pid in s.procs
  {
    var pl := Place(pid, address / PAGE * PAGE);
    && s.procs[pid].stackBottom != 0
    && if write && pl in s.slots && s.slots[pl].cow then s.slots[pl].prot.write
       else pl !in s.pt && (InStack(pl.page) || (pl in s.slots && SlotPermits(s, pl, address, write)))
  }

  /** A page-table entry that allows the access. */
  predicate EntryReady(pt: map<Place, Pte>, pl: Place, write: bool) {
    pl in pt && (write ==> pt[pl].writable)
  }

  /** Whether a page is ready or a fault makes it so, given memory. */
  ghost predicate Accessible(s: State, pid: nat, page: nat, write: bool)
    requires pid in s.procs
  {
    var pl := Place(pid, page);
    EntryReady(s.pt, pl, write)
      || (Permitted(s, pid, page, write) && (write && pl in s.slots ==> s.slots[pl].prot.write))
  }

  /** The same for one address: a page at the break can be touched below it only. */
  ghost predicate AccessibleAt(s: State, pid: nat, address: nat, write: bool)
    requires pid in s.procs
  {
    var pl := Place(pid, address / PAGE * PAGE);
    EntryReady(s.pt, pl, write)
      || (Permitted(s, pid, address, write) && (write && pl in s.slots ==> s.slots[pl].prot.write))
  }

  /** A heap page of a running process that has no entry yet. */
  ghost predicate Untouched(s: State, pid: nat, address: nat) {
    var pl := Place(pid, address / PAGE * PAGE);
    pid in s.procs && s.procs[pid].stackBottom != 0 && pl in s.slots && s.slots[pl].region.Heap? && pl !in s.pt
  }

  /** What a fault leaves behind at an address that could be accessed. */
  lemma FaultServes(s: State, t: State, pid: nat, address: nat, write: bool, ok: bool)
    requires Invisible(s, t) && pid in s.procs && (ok ==> Served(s, Place(pid, address / PAGE * PAGE), t, write))
    requires Permitted(s, pid, address, write) ==> ok
    ensures AccessibleAt(s, pid, address, write) ==> EntryReady(t.pt, Place(pid, address / PAGE * PAGE), write)
  {
  }

  /** An untouched heap slot: the fault is resolved, writably, exactly below the break. */
  lemma HeapFaults(s: State, t: State, pid: nat, address: nat, write: bool, ok: bool)
    requires Good(s) && Invisible(s, t) && Untouched(s, pid, address)
    requires (ok <==> Permitted(s, pid, address, write)) && (ok ==> Place(pid, address / PAGE * PAGE) in t.pt)
    ensures ok <==> HEAP_START <= address < s.procs[pid].heapBreak
    ensures ok ==> EntryReady(t.pt, Place(pid, address / PAGE * PAGE), true)
  {
    var pl := Place(pid, address / PAGE * PAGE);
    AlwaysMapped(s, pl);
    assert SlotOk(pl, s.slots[pl], s.backings, s.procs);
    assert PlaceEases(s, t, pl);
  }

  /** Faults never take an access away: what was permitted or ready stays so. */
  lemma AccessStays(s: State, t: State, pid: nat, page: nat, write: bool)
    requires Invisible(s, t) && pid in s.procs && page % PAGE == 0
    ensures Accessible(s, pid, page, write) ==> Accessible(t, pid, page, write)
  {
    assert View(t, Place(pid, page)) == View(s, Place(pid, page));
    assert PlaceEases(s, t, Place(pid, page));
    StillAccessible(s, t, pid, page, write);
  }

  lemma StillAccessible(s: State, t: State, pid: nat, page: nat, write: bool)
    requires pid in s.procs && pid in t.procs && ProcEases(s.procs[pid], t.procs[pid])
    requires PlaceEases(s, t, Place(pid, page))
    requires PtGrows(s.pt, t.pt) && View(t, Place(pid, page)) == View(s, Place(pid, page)) && page % PAGE == 0
    ensures Accessible(s, pid, page, write) ==> Accessible(t, pid, page, write)
  {
  }
}

/**
 The memory state of the kernel: physical frames with reference counts, the page
 tables, the slots of every process, the shared backings and the page cache
 (xscore/kernel/process.c, xscore/kernel/page_cache.c).

 The arrays `mapped_*`, `heap_*` and `mmap_*` of a process are one dictionary `slots`
 from places to slots. A fault searches the tracked pages first, so a heap page that
 lies under a tracked page is never reached and has no slot here. The frames in
 `physical_pages`, `heap_physical_pages`, `mmap_physical_pages`,
 `backing->physical_pages` and the cache entries are one dictionary `resident` from
 cells to frames; a null frame is an absent cell. The holders of a backing, which are
 mapping slots and shared-memory objects, are the dictionary `attached`.
 */
module Machine {
  import opened Bytes
  import opened Ledger
  import Elf

  // ---------- Address-space layout of the 64-bit ports ----------

  const USER_CODE: nat := 0x80_0000_0000
  const STACK_TOP: nat := USER_CODE + 0x0020_1000
  const STACK_LIMIT: nat := STACK_TOP - 64 * PAGE
  const HEAP_START: nat := USER_CODE + 0x0040_0000
  const MAX_HEAP_PAGES: nat := 8192
  const HEAP_END: nat := HEAP_START + MAX_HEAP_PAGES * PAGE
  const MMAP_START: nat := USER_CODE + 0x0300_0000
  const MMAP_END: nat := USER_CODE + 0x1300_0000
  /** One leaf page table maps this many bytes. */
  const TABLE_SPAN: nat := 0x20_0000

  predicate InStack(page: nat) {
    STACK_LIMIT <= page < STACK_TOP
  }

  // ---------- State ----------

  /** A page of a process. */
  datatype Place = Place(pid: nat, page: nat)

  datatype Region = Tracked | Heap | Mapping

  datatype Prot = Prot(read: bool, write: bool, exec: bool)

  const PROT_NONE: Prot := Prot(false, false, false)

  /** Where the bytes of a mapping come from: nowhere, a private snapshot, or a page of a shared backing. */
  datatype Source = Anonymous | Snapshot(backing: nat, offset: nat) | Shared(backing: nat, index: nat)

  /** One slot of `mapped_*`, `heap_*` or `mmap_*`. */
  datatype Slot = Slot(region: Region, prot: Prot, cow: bool, source: Source)

  /** Whatever can hold a reference to a frame. */
  datatype Cell =
    | SlotCell(place: Place)
    | BackingCell(backing: nat, index: nat)
    | CacheCell(image: Elf.Image, off: nat)

  /** Whatever can hold a reference to a backing. */
  datatype Attachment = SlotRef(place: Place) | ObjectRef(id: nat)

  datatype Seal = SealSeal | SealShrink | SealGrow | SealWrite | SealFutureWrite

  /** `data` is the snapshot of a private file mapping. */
  datatype Backing = Backing(shared: bool, memfd: bool, immutable: bool, length: nat,
                             sealable: bool, seals: set<Seal>, data: seq<Byte>)

  datatype Pte = Pte(frame: nat, writable: bool)

  /** The image a process runs and the base it is loaded at. */
  datatype Program = NoProgram | Program(image: Elf.Image, base: nat)

  datatype Process = Process(program: Program, stackBottom: nat, heapBreak: nat)

  type Slots = map<Place, Slot>
  type Residents = map<Cell, nat>
  type Frames = map<nat, Page>
  type Backings = map<nat, Backing>

  datatype State = State(
    frames: Frames,
    refs: map<nat, nat>,
    resident: Residents,
    slots: Slots,
    pt: map<Place, Pte>,
    tables: set<Place>,
    backings: Backings,
    shares: map<nat, nat>,
    attached: map<Attachment, nat>,
    procs: map<nat, Process>)

  // ---------- What a process sees ----------

  /** The bytes in the frame of a cell, if it has one. */
  ghost function Held(frames: Frames, resident: Residents, c: Cell): (r: Option<Page>) {
    if c in resident && resident[c] in frames then Some(frames[resident[c]]) else None
  }

  /** The bytes of a private file mapping's page: the snapshot, then zeros. */
  function SnapshotPage(data: seq<Byte>, offset: nat): (p: Page) {
    seq(PAGE, i requires 0 <= i < PAGE => if offset + i < |data| then data[offset + i] else 0)
  }

  /** The bytes a tracked page has before its first fault; None when the load is refused. */
  ghost function TrackedPage(p: Program, page: nat): (r: Option<Page>) {
    if InStack(page) then Some(ZeroPage())
    else if p.NoProgram? || !Elf.ValidImage(p.image) || page < p.base then None
    else
      var r := Elf.LazyPage(p.image, p.base, page - p.base);
      if r.None? then None else Some(r.value)
  }

  /** The bytes of one page of a shared backing; pages never written are zero. */
  ghost function BackingPage(s: State, b: nat, k: nat): (p: Page) {
    var held := Held(s.frames, s.resident, BackingCell(b, k));
    if held.Some? then held.value else ZeroPage()
  }

  ghost function SourcePage(s: State, source: Source): (r: Option<Page>) {
    match source
    case Anonymous => Some(ZeroPage())
    case Snapshot(b, offset) =>
      if b in s.backings then Some(SnapshotPage(s.backings[b].data, offset)) else None
    case Shared(b, k) => Some(BackingPage(s, b, k))
  }

  /** The bytes a slot gets from its first fault; None when that fault is refused. */
  ghost function Initial(s: State, pl: Place): (r: Option<Page>)
    requires pl in s.slots
  {
    if s.slots[pl].region.Tracked? then
      if pl.pid in s.procs then TrackedPage(s.procs[pl.pid].program, pl.page) else None
    else SourcePage(s, s.slots[pl].source)
  }

  /** The bytes a process reads in a page: untouched pages of the stack window read as zero. */
  ghost function View(s: State, pl: Place): (r: Option<Page>) {
    if pl in s.slots then
      var held := Held(s.frames, s.resident, SlotCell(pl));
      if held.Some? then held else Initial(s, pl)
    else if pl.pid in s.procs && InStack(pl.page) then Some(ZeroPage()) else None
  }

  ghost predicate SameViews(s: State, t: State) {
    forall pl :: View(t, pl) == View(s, pl)
  }

  // ---------- Invariant ----------

  /** Every frame's reference count is the number of cells that hold it. */
  ghost predicate FramesConserved(resident: Residents, refs: map<nat, nat>, frames: Frames) {
    Balanced(resident, refs) && frames.Keys == refs.Keys && 0 !in refs
  }

  /** Every backing's reference count is the number of slots and objects that hold it. */
  ghost predicate BackingsConserved(attached: map<Attachment, nat>, shares: map<nat, nat>, backings: Backings) {
    Balanced(attached, shares) && backings.Keys == shares.Keys
  }

  /** The attachments of slots are the backings that the slots name. */
  ghost predicate AttachedAgree(attached: map<Attachment, nat>, slots: Slots) {
    && (forall pl :: SlotRef(pl) in attached <==> pl in slots && !slots[pl].source.Anonymous?)
    && (forall pl :: pl in slots && !slots[pl].source.Anonymous? ==> attached[SlotRef(pl)] == slots[pl].source.backing)
  }

  /** Whether a slot lies where its region is, with a source its backing was created for. */
  ghost predicate SlotOk(pl: Place, slot: Slot, backings: Backings, procs: map<nat, Process>) {
    && pl.pid in procs && pl.page % PAGE == 0
    && (slot.region.Heap? ==> HEAP_START <= pl.page < HEAP_END && slot.prot == Prot(true, true, false))
    && (slot.region.Mapping? ==> MMAP_START <= pl.page < MMAP_END)
    && (!slot.region.Mapping? ==> slot.source.Anonymous? && slot.prot != PROT_NONE)
    && (!slot.source.Anonymous? ==>
        slot.source.backing in backings && backings[slot.source.backing].shared == slot.source.Shared?)
    && (slot.source.Shared? ==> slot.source.index < PageCount(backings[slot.source.backing].length))
  }

  /** The number of pages that `length` bytes reach into. */
  function PageCount(length: nat): nat {
    (length + PAGE - 1) / PAGE
  }

  ghost predicate SlotsOk(slots: Slots, backings: Backings, procs: map<nat, Process>) {
    forall pl :: pl in slots ==> SlotOk(pl, slots[pl], backings, procs)
  }

  ghost predicate CellOk(c: Cell, slots: Slots, backings: Backings) {
    match c
    case SlotCell(pl) => pl in slots
    case BackingCell(b, k) => b in backings && backings[b].shared
    case CacheCell(_, _) => true
  }

  ghost predicate CellsOk(resident: Residents, slots: Slots, backings: Backings) {
    forall c :: c in resident ==> CellOk(c, slots, backings)
  }

  /** The page of a shared backing that a cell stands for, if any. */
  ghost function Key(slots: Slots, c: Cell): (r: Option<(nat, nat)>) {
    match c
    case BackingCell(b, k) => Some((b, k))
    case CacheCell(_, _) => None
    case SlotCell(pl) =>
      if pl in slots && slots[pl].source.Shared?
      then Some((slots[pl].source.backing, slots[pl].source.index)) else None
  }

  /** A private slot that may be written without a copy. */
  ghost predicate Owns(slots: Slots, c: Cell) {
    c.SlotCell? && c.place in slots && OwnsSlot(slots[c.place])
  }

  ghost predicate OwnsSlot(slot: Slot) {
    !slot.source.Shared? && !slot.cow && (slot.region.Tracked? ==> slot.prot.write)
  }

  /** Cells that share a frame stand for the same shared page, and none of them owns it. */
  ghost predicate Separated(resident: Residents, slots: Slots) {
    forall c, d :: c in resident && d in resident && c != d && resident[c] == resident[d]
      ==> Key(slots, c) == Key(slots, d) && !Owns(slots, c)
  }

  /** A resident shared slot holds the frame of its backing. */
  ghost predicate SharedAgree(resident: Residents, slots: Slots) {
    forall pl :: SlotCell(pl) in resident && pl in slots && slots[pl].source.Shared? ==>
      var c := BackingCell(slots[pl].source.backing, slots[pl].source.index);
      c in resident && resident[c] == resident[SlotCell(pl)]
  }

  function TableOf(pl: Place): Place {
    Place(pl.pid, pl.page / TABLE_SPAN)
  }

  ghost predicate PteOk(pl: Place, pte: Pte, tables: set<Place>, slots: Slots, resident: Residents) {
    && TableOf(pl) in tables
    && pl in slots && SlotCell(pl) in resident && resident[SlotCell(pl)] == pte.frame
    && (pte.writable <==> slots[pl].prot.write && !slots[pl].cow)
  }

  /** Every page-table entry maps the frame of its slot, and writably exactly if the slot allows it in place. */
  ghost predicate PtesSound(pt: map<Place, Pte>, tables: set<Place>, slots: Slots, resident: Residents) {
    forall pl :: pl in pt ==> PteOk(pl, pt[pl], tables, slots, resident)
  }

  /** Every resident page that is not PROT_NONE is mapped. */
  ghost predicate PtesComplete(pt: map<Place, Pte>, slots: Slots, resident: Residents) {
    forall pl :: pl in slots && SlotCell(pl) in resident && slots[pl].prot != PROT_NONE ==> pl in pt
  }

  /** A cached frame holds the bytes that any process would load there. */
  ghost predicate CacheSound(frames: Frames, resident: Residents) {
    forall c {:trigger Held(frames, resident, c)} :: c in resident && c.CacheCell? ==>
      CacheOk(c.image, c.off, Held(frames, resident, c))
  }

  ghost predicate CacheOk(image: Elf.Image, off: nat, held: Option<Page>) {
    Elf.ValidImage(image) && !Elf.HasRelocations(image, off) && Elf.LazyPage(image, 0, off) == held
  }

  /** No mapping of a write-sealed backing allows writing. */
  ghost predicate SealsHold(slots: Slots, backings: Backings) {
    forall pl :: pl in slots && slots[pl].source.Shared? && slots[pl].source.backing in backings ==>
      (SealWrite in backings[slots[pl].source.backing].seals ==> !slots[pl].prot.write)
  }

  /** Only memfd backings can be sealed. */
  ghost predicate MemfdSeals(backings: Backings) {
    forall b :: b in backings && backings[b].seals != {} ==> backings[b].memfd
  }

  ghost predicate ProcOk(p: Process) {
    && (p.program.Program? ==> Elf.ValidImage(p.program.image))
    && p.stackBottom % PAGE == 0 && p.stackBottom <= STACK_TOP
    && HEAP_START <= p.heapBreak <= HEAP_END
  }

  ghost predicate ProcsOk(procs: map<nat, Process>) {
    forall p :: p in procs ==> ProcOk(procs[p])
  }

  ghost predicate Inv(s: State) {
    && FramesConserved(s.resident, s.refs, s.frames)
    && BackingsConserved(s.attached, s.shares, s.backings)
    && AttachedAgree(s.attached, s.slots)
    && SlotsOk(s.slots, s.backings, s.procs)
    && CellsOk(s.resident, s.slots, s.backings)
    && Separated(s.resident, s.slots)
    && SharedAgree(s.resident, s.slots)
    && PtesSound(s.pt, s.tables, s.slots, s.resident)
    && PtesComplete(s.pt, s.slots, s.resident)
    && CacheSound(s.frames, s.resident)
    && SealsHold(s.slots, s.backings)
    && MemfdSeals(s.backings)
    && ProcsOk(s.procs)
  }
}

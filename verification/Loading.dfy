/**
 Loading a program: the pages of its segments are reserved with the union of their
 permissions, nothing is read until a page is touched, and only the first stack page and
 the signal trampoline get frames at once (xscore/kernel/process.c).
 */
module Loading {
  import opened Bytes
  import opened Ledger
  import opened Machine
  import opened Steps
  import opened Moves
  import opened Slotting
  import opened Changes
  import opened Faults
  import opened Teardown
  import opened Reserving
  import opened Forking
  import opened Sharing
  import opened Runs
  import opened Kernels
  import Access
  import Elf
  import LoadedWords

  const STACK_PAGE: nat := STACK_TOP - PAGE
  const TRAMPOLINE_OFFSET: nat := 0x0280_0000
  const TRAMPOLINE: nat := USER_CODE + TRAMPOLINE_OFFSET
  const TRAMPOLINE_SLOT: Slot := Slot(Tracked, Prot(true, false, true), false, Anonymous)

  // ---------- What the image asks for ----------

  /** A page that a segment asks for, by its offset in the image. */
  datatype PageRequest = PageRequest(off: nat, write: bool, exec: bool)

  /** Whether the page at `off` is one of those from the start of a segment to its end. */
  predicate Covers(word: nat, g: Elf.Segment, off: nat) {
    g.memsz > 0 && off < Elf.End(word, g) && g.vaddr < off + PAGE
  }

  function PagesIn(word: nat, g: Elf.Segment): nat {
    var first, end := g.vaddr / PAGE, PageCount(Elf.End(word, g));
    if g.memsz == 0 || end <= first then 0 else end - first
  }

  function Request(g: Elf.Segment, i: nat): PageRequest {
    PageRequest((g.vaddr / PAGE + i) * PAGE, g.write, g.exec)
  }

  function Requests(g: Elf.Segment, n: nat): seq<PageRequest> {
    seq(n, i requires 0 <= i < n => Request(g, i))
  }

  /** What the first `n` segments ask for, in order. */
  function AllRequests(im: Elf.Image, n: nat): seq<PageRequest>
    requires n <= |im.segments|
  {
    if n == 0 then [] else AllRequests(im, n - 1) + Requests(im.segments[n - 1], PagesIn(im.word, im.segments[n - 1]))
  }

  /** What a page may be asked for. */
  datatype Right = Any | Writing | Executing

  predicate Grants(right: Right, write: bool, exec: bool) {
    match right
    case Any => true
    case Writing => write
    case Executing => exec
  }

  ghost predicate Asked(pages: seq<PageRequest>, off: nat, right: Right) {
    exists i :: 0 <= i < |pages| && pages[i].off == off && Grants(right, pages[i].write, pages[i].exec)
  }

  /** A page of the image that some segment covers, with that right. */
  ghost predicate Requested(im: Elf.Image, n: nat, off: nat, right: Right)
    requires n <= |im.segments|
  {
    off % PAGE == 0 &&
    exists i :: 0 <= i < n && Covers(im.word, im.segments[i], off)
      && Grants(right, im.segments[i].write, im.segments[i].exec)
  }

  lemma RequestsMore(before: seq<PageRequest>, g: Elf.Segment, i: nat)
    ensures before + Requests(g, i + 1) == before + Requests(g, i) + [Request(g, i)]
  {
  }

  lemma SegmentAsked(word: nat, g: Elf.Segment, off: nat, right: Right)
    ensures Asked(Requests(g, PagesIn(word, g)), off, right) <==>
      off % PAGE == 0 && Covers(word, g, off) && Grants(right, g.write, g.exec)
  {
    var pages := Requests(g, PagesIn(word, g));
    if Asked(pages, off, right) {
      var i :| 0 <= i < |pages| && pages[i].off == off && Grants(right, pages[i].write, pages[i].exec);
      PageMeets(word, g, i);
    }
    if off % PAGE == 0 && Covers(word, g, off) && Grants(right, g.write, g.exec) {
      var i := off / PAGE - g.vaddr / PAGE;
      assert 0 <= i < PagesIn(word, g);
      assert pages[i].off == off;
    }
  }

  lemma PageMeets(word: nat, g: Elf.Segment, i: nat)
    requires i < PagesIn(word, g)
    ensures Request(g, i).off % PAGE == 0 && Covers(word, g, Request(g, i).off)
  {
  }

  lemma AskedOfBoth(a: seq<PageRequest>, b: seq<PageRequest>, off: nat, right: Right)
    ensures Asked(a + b, off, right) <==> Asked(a, off, right) || Asked(b, off, right)
  {
    if Asked(a, off, right) {
      var i :| 0 <= i < |a| && a[i].off == off && Grants(right, a[i].write, a[i].exec);
      assert (a + b)[i] == a[i];
    }
    if Asked(b, off, right) {
      var i :| 0 <= i < |b| && b[i].off == off && Grants(right, b[i].write, b[i].exec);
      assert (a + b)[|a| + i] == b[i];
    }
  }

  /** The requests are exactly the pages that the segments cover. */
  lemma {:induction false} RequestsCover(im: Elf.Image, n: nat, off: nat, right: Right)
    requires n <= |im.segments|
    ensures Asked(AllRequests(im, n), off, right) <==> Requested(im, n, off, right)
  {
    if n > 0 {
      RequestsCover(im, n - 1, off, right);
      var g := im.segments[n - 1];
      SegmentAsked(im.word, g, off, right);
      AskedOfBoth(AllRequests(im, n - 1), Requests(g, PagesIn(im.word, g)), off, right);
      RequestedMore(im, n, off, right);
    }
  }

  lemma RequestedMore(im: Elf.Image, n: nat, off: nat, right: Right)
    requires 0 < n <= |im.segments|
    ensures var g := im.segments[n - 1];
      Requested(im, n, off, right) <==>
      || Requested(im, n - 1, off, right)
      || (off % PAGE == 0 && Covers(im.word, g, off) && Grants(right, g.write, g.exec))
  {
    if Requested(im, n - 1, off, right) {
      var i :| 0 <= i < n - 1 && Covers(im.word, im.segments[i], off)
        && Grants(right, im.segments[i].write, im.segments[i].exec);
      assert i < n;
    }
  }

  // ---------- Segments that wrap around ----------

  /** The end of an ELFCLASS32 segment does not fit a word. */
  predicate Wraps(word: nat, g: Elf.Segment) {
    word == 4 && g.vaddr + g.memsz >= Elf.WORD32
  }

  /** Whether the memory that a segment asks for in its header meets the page at `off`. */
  predicate Meets(g: Elf.Segment, off: nat) {
    g.memsz > 0 && off < g.vaddr + g.memsz && g.vaddr < off + PAGE
  }

  /** A segment gets exactly the pages that its memory meets, if and only if its end does not wrap around. */
  lemma CoversUnlessWrapped(word: nat, g: Elf.Segment)
    requires g.memsz > 0 && (word == 4 ==> g.vaddr < Elf.WORD32 && g.memsz < Elf.WORD32)
    ensures (forall off: nat | off % PAGE == 0 :: Covers(word, g, off) <==> Meets(g, off)) <==> !Wraps(word, g)
  {
    if Wraps(word, g) {
      var off := if g.vaddr + g.memsz == Elf.WORD32 then Elf.WORD32 - PAGE else Elf.WORD32;
      assert off % PAGE == 0 && Meets(g, off) && !Covers(word, g, off);
    }
  }

  /** The pages asked for are those that the memory of some segment meets, if no end wraps around. */
  lemma RequestedIsMet(im: Elf.Image, off: nat, right: Right)
    requires forall i :: 0 <= i < |im.segments| ==> !Wraps(im.word, im.segments[i])
    ensures Requested(im, |im.segments|, off, right) <==>
      off % PAGE == 0 &&
      exists i :: 0 <= i < |im.segments| && Meets(im.segments[i], off)
        && Grants(right, im.segments[i].write, im.segments[i].exec)
  {
  }

  /** Every page that gets file bytes from a checked segment is asked for, if its end does not wrap around. */
  lemma FilePagesAsked(image: Elf.Image, i: nat, off: nat, a: nat)
    requires i < |image.segments| && off % PAGE == 0 && off <= a < off + PAGE && !Wraps(image.word, image.segments[i])
    requires var g := image.segments[i]; g.filesz <= g.memsz && g.vaddr <= a < g.vaddr + g.filesz
    ensures Asked(AllRequests(image, |image.segments|), off, Any)
  {
    RequestsCover(image, |image.segments|, off, Any);
    assert Covers(image.word, image.segments[i], off);
  }

  // ---------- The slots ----------

  /** The slot of a page: what was granted before stays granted. */
  function MergedSlot(slots: Slots, pl: Place, p: PageRequest): Slot {
    var before := if pl in slots then slots[pl].prot else PROT_NONE;
    Slot(Tracked, Prot(true, before.write || p.write, before.exec || p.exec), false, Anonymous)
  }

  /** The slots after all requests. */
  function ImageSlots(slots: Slots, pid: nat, base: nat, pages: seq<PageRequest>): Slots {
    if pages == [] then slots
    else
      var p := pages[|pages| - 1];
      var before := ImageSlots(slots, pid, base, pages[..|pages| - 1]);
      before[Place(pid, base + p.off) := MergedSlot(before, Place(pid, base + p.off), p)]
  }

  lemma ImageSlotsMore(slots: Slots, pid: nat, base: nat, pages: seq<PageRequest>, p: PageRequest)
    ensures var before := ImageSlots(slots, pid, base, pages); var pl := Place(pid, base + p.off);
      ImageSlots(slots, pid, base, pages + [p]) == before[pl := MergedSlot(before, pl, p)]
  {
    assert (pages + [p])[..|pages|] == pages;
  }

  /** Exactly the pages asked for have slots; a page has a right exactly when some segment asked for it. */
  lemma {:induction false} ImageSlotsAre(slots: Slots, pid: nat, base: nat, pages: seq<PageRequest>, page: nat)
    requires forall pl :: pl in slots ==> pl.pid != pid
    ensures var t := ImageSlots(slots, pid, base, pages); var pl := Place(pid, page);
      && (pl in t <==> page >= base && Asked(pages, page - base, Any))
      && (pl in t ==> t[pl].region.Tracked? && t[pl].source.Anonymous? && !t[pl].cow && t[pl].prot.read)
      && (pl in t ==> (t[pl].prot.write <==> Asked(pages, page - base, Writing)))
      && (pl in t ==> (t[pl].prot.exec <==> Asked(pages, page - base, Executing)))
    decreases |pages|
  {
    if pages != [] {
      var front, p := pages[..|pages| - 1], pages[|pages| - 1];
      ImageSlotsAre(slots, pid, base, front, page);
      assert pages == front + [p];
      if page >= base {
        AskedMore(front, p, page - base, Any);
        AskedMore(front, p, page - base, Writing);
        AskedMore(front, p, page - base, Executing);
      }
    }
  }

  lemma AskedMore(pages: seq<PageRequest>, p: PageRequest, off: nat, right: Right)
    ensures Asked(pages + [p], off, right) <==>
      Asked(pages, off, right) || (p.off == off && Grants(right, p.write, p.exec))
  {
    AskedOfBoth(pages, [p], off, right);
    if p.off == off && Grants(right, p.write, p.exec) {
      assert [p][0].off == off;
    }
  }

  lemma {:induction false} OtherSlots(slots: Slots, pid: nat, base: nat, pages: seq<PageRequest>, q: Place)
    requires q.pid != pid
    ensures q in ImageSlots(slots, pid, base, pages) <==> q in slots
    ensures q in slots ==> ImageSlots(slots, pid, base, pages)[q] == slots[q]
    decreases |pages|
  {
    if pages != [] {
      OtherSlots(slots, pid, base, pages[..|pages| - 1], q);
    }
  }

  // ---------- One page ----------

  ghost predicate CanTrack(s: State, pl: Place, slot: Slot) {
    && pl.pid in s.procs && pl.page % PAGE == 0
    && slot.region.Tracked? && slot.source.Anonymous? && !slot.cow && slot.prot.read
    && (pl in s.slots ==> s.slots[pl].region.Tracked? && s.slots[pl].source.Anonymous?) && SlotCell(pl) !in s.resident
  }

  lemma TrackStep(s: State, pl: Place, slot: Slot, t: State)
    requires Good(s) && CanTrack(s, pl, slot) && t == s.(slots := s.slots[pl := slot])
    ensures Good(t) && ViewsBut(s, t, pl)
  {
    if pl in s.slots {
      SlotChange(s, pl, slot);
      SlotChangeOk(s, pl, slot);
      SlotChangeSeparates(s, pl, slot);
      TrackPtes(s, pl, slot);
      TrackViews(s, pl, slot);
    } else {
      assert t == Slotted(s, pl, slot, None);
      SlotInv(s, pl, slot, None);
      SlotStep(s, pl, slot, None, t);
    }
  }

  lemma TrackPtes(s: State, pl: Place, slot: Slot)
    requires PtesSound(s.pt, s.tables, s.slots, s.resident) && PtesComplete(s.pt, s.slots, s.resident)
    requires CowsOk(s.slots, s.resident) && SlotCell(pl) !in s.resident && !slot.cow
    ensures PtesSound(s.pt, s.tables, s.slots[pl := slot], s.resident)
    ensures PtesComplete(s.pt, s.slots[pl := slot], s.resident) && CowsOk(s.slots[pl := slot], s.resident)
  {
    assert pl in s.pt ==> PteOk(pl, s.pt[pl], s.tables, s.slots, s.resident);
  }

  lemma TrackViews(s: State, pl: Place, slot: Slot)
    requires pl in s.slots && SameShape(slot, s.slots[pl])
    ensures ViewsBut(s, s.(slots := s.slots[pl := slot]), pl)
  {
    ViewKept0(s, s.(slots := s.slots[pl := slot]));
  }

  /** A page that is tracked together with a frame of its own: nobody else sees anything. */
  lemma PlantStep(s: State, pl: Place, slot: Slot, f: nat, content: Page, t: State)
    requires Good(s) && CanTrack(s, pl, slot) && Fresh(s, f) && t == Planted(s, pl, slot, f, content)
    ensures Good(t) && ViewsBut(s, t, pl) && SameShared(s, t) && View(t, pl) == Some(content)
  {
    var u := s.(slots := s.slots[pl := slot]);
    TrackStep(s, pl, slot, u);
    AbsentFacts(u, pl);
    CommitInv(u, pl, f, content, slot.prot.write);
    CommitEntries(u, pl, f, content, slot.prot.write);
    CommitShared(u, pl, f, content, slot.prot.write);
    SharedUntouched(s, u);
    SameSharedTwice(s, u, t);
    PlantViews(u, pl, f, content, slot.prot.write);
    ViewsButTwice(s, u, t, pl);
  }

  lemma PlantViews(s: State, pl: Place, f: nat, content: Page, writable: bool)
    requires SlotCell(pl) !in s.resident && Unheld(s.resident, f) && pl in s.slots
    ensures var t := Committed(s, pl, f, content, writable); ViewsBut(s, t, pl) && View(t, pl) == Some(content)
  {
    var t := Committed(s, pl, f, content, writable);
    FillHeld(s.frames, s.resident, SlotCell(pl), f, content);
    forall q | q != pl
      ensures View(t, q) == View(s, q)
    {
      if q in s.slots {
        SourceKept(s, t, s.slots[q].source);
      }
      ViewKept(s, t, q);
    }
  }

  // ---------- Reserving the image ----------

  /** A process that has no program yet and whose memory has been reserved for some requests. */
  ghost predicate Starting(s: State, t: State, pid: nat, p: Process, base: nat, pages: seq<PageRequest>) {
    && Good(t) && t == s.(procs := s.procs[pid := p], slots := ImageSlots(s.slots, pid, base, pages))
    && forall q: Place :: q.pid != pid ==> View(t, q) == View(s, q)
  }

  ghost predicate CanStart(s: State, pid: nat, base: nat) {
    Good(s) && pid !in s.procs && base % PAGE == 0
  }

  lemma StillUnloaded(s: State, pid: nat, pl: Place)
    requires Good(s) && pid !in s.procs && pl.pid == pid
    ensures SlotCell(pl) !in s.resident && pl !in s.pt && pl !in s.slots
  {
    NoSlots(s, pid);
    assert SlotCell(pl) in s.resident ==> CellOk(SlotCell(pl), s.slots, s.backings);
    assert pl in s.pt ==> PteOk(pl, s.pt[pl], s.tables, s.slots, s.resident);
  }

  lemma StartMore(s: State, t: State, u: State, pid: nat, p: Process, base: nat, pages: seq<PageRequest>,
      x: PageRequest)
    requires CanStart(s, pid, base) && x.off % PAGE == 0 && Starting(s, t, pid, p, base, pages)
    requires var pl := Place(pid, base + x.off); u == t.(slots := t.slots[pl := MergedSlot(t.slots, pl, x)])
    ensures Starting(s, u, pid, p, base, pages + [x])
  {
    var pl := Place(pid, base + x.off);
    NoSlots(s, pid);
    ImageSlotsAre(s.slots, pid, base, pages, base + x.off);
    StillUnloaded(s, pid, pl);
    assert (base + x.off) % PAGE == 0;
    TrackStep(t, pl, MergedSlot(t.slots, pl, x), u);
    ImageSlotsMore(s.slots, pid, base, pages, x);
    OthersUnseen(s, t, u, pid, pl);
  }

  lemma OthersUnseen(s: State, t: State, u: State, pid: nat, pl: Place)
    requires ViewsBut(t, u, pl) && pl.pid == pid && forall q: Place :: q.pid != pid ==> View(t, q) == View(s, q)
    ensures forall q: Place :: q.pid != pid ==> View(u, q) == View(s, q)
  {
    forall q: Place | q.pid != pid
      ensures View(u, q) == View(s, q)
    {
      assert View(u, q) == View(t, q);
    }
  }

  /** The inner loop over the pages of one segment; the table of tracked pages may be full. */
  method ReserveSegment(k: Kernel, ghost s: State, pid: nat, ghost p: Process, base: nat, word: nat, g: Elf.Segment,
      ghost before: seq<PageRequest>)
    returns (ok: bool, ghost pages: seq<PageRequest>)
    requires CanStart(s, pid, base) && Starting(s, k.m, pid, p, base, before)
    modifies k
    ensures Starting(s, k.m, pid, p, base, pages)
    ensures ok ==> pages == before + Requests(g, PagesIn(word, g))
    ensures !ok ==> k.starved
  {
    var i := 0;
    pages := before;
    while i < PagesIn(word, g)
      invariant i <= PagesIn(word, g) && pages == before + Requests(g, i) && Starting(s, k.m, pid, p, base, pages)
    {
      var full: bool := *;
      if full {
        k.starved := true;
        return false, pages;
      }
      ReservePage(k, s, pid, p, base, pages, Request(g, i));
      RequestsMore(before, g, i);
      pages := pages + [Request(g, i)];
      i := i + 1;
    }
    ok := true;
  }

  method ReservePage(k: Kernel, ghost s: State, pid: nat, ghost p: Process, base: nat, ghost pages: seq<PageRequest>,
      x: PageRequest)
    requires CanStart(s, pid, base) && x.off % PAGE == 0 && Starting(s, k.m, pid, p, base, pages)
    modifies k`m
    ensures Starting(s, k.m, pid, p, base, pages + [x])
  {
    ghost var t := k.m;
    var pl := Place(pid, base + x.off);
    k.m := k.m.(slots := k.m.slots[pl := MergedSlot(k.m.slots, pl, x)]);
    StartMore(s, t, k.m, pid, p, base, pages, x);
  }

  // ---------- The checks ----------

  /** What the header parser guarantees; segments that take no memory are not looked at again. */
  ghost predicate Parsed(im: Elf.Image) {
    && (im.word == 4 || im.word == 8) && (!im.dynamic ==> im.rela == [] && im.rel == [])
    && (im.word == 4 ==> forall g :: g in im.segments ==> g.vaddr < Elf.WORD32 && g.memsz < Elf.WORD32)
    && forall g :: g in im.segments && g.memsz == 0 ==> Elf.SegmentFits(im, g)
  }

  function Limit(base: nat): nat {
    if base != 0 then Elf.LOAD_WINDOW else USER_CODE + Elf.LOAD_WINDOW
  }

  predicate SegmentOk(im: Elf.Image, base: nat, g: Elf.Segment) {
    && g.filesz <= g.memsz && g.offset + g.filesz <= |im.bytes| && Elf.End(im.word, g) <= Limit(base)
    && !Covers(im.word, g, if base != 0 then TRAMPOLINE_OFFSET else TRAMPOLINE)
  }

  /** An image that is accepted: good segments, an entry point in one of them, and targets in the window. */
  ghost predicate LoadOk(im: Elf.Image, base: nat) {
    && (forall i :: 0 <= i < |im.segments| && im.segments[i].memsz > 0 ==> SegmentOk(im, base, im.segments[i]))
    && Requested(im, |im.segments|, im.entry / PAGE * PAGE, Any) && base + im.entry / PAGE * PAGE != 0
    && (forall e :: e in im.rela ==> e.target < Elf.LOAD_WINDOW)
    && (forall e :: e in im.rel ==> e.target < Elf.LOAD_WINDOW)
  }

  /** Whether a segment of an image without a base, or with one, has its bytes in the file and ends in its window. */
  predicate Sensible(im: Elf.Image, base: nat, g: Elf.Segment) {
    && g.filesz <= g.memsz && g.offset + g.filesz <= |im.bytes|
    && g.vaddr + g.memsz <= 0x0100_0000 + if base == 0 then 0x80_0000_0000 else 0
  }

  /**
   An image whose segments do not wrap around is accepted if and only if all segments that take
   memory are sensible, one of them meets the page of the entry point, and every relocation has its
   target in the window.
   */
  lemma AcceptedIf(im: Elf.Image, base: nat)
    requires forall i :: 0 <= i < |im.segments| ==> !Wraps(im.word, im.segments[i])
    ensures LoadOk(im, base) <==>
      && (forall g :: g in im.segments && g.memsz > 0 ==> Sensible(im, base, g))
      && (exists g :: g in im.segments && Meets(g, im.entry / PAGE * PAGE)) && (base > 0 || im.entry >= PAGE)
      && forall e :: e in im.rela + im.rel ==> e.target < 0x0100_0000
  {
    forall i | 0 <= i < |im.segments| && im.segments[i].memsz > 0
      ensures SegmentOk(im, base, im.segments[i]) <==> Sensible(im, base, im.segments[i])
    {
    }
    RequestedIsMet(im, im.entry / PAGE * PAGE, Any);
    assert (forall g :: g in im.segments && g.memsz > 0 ==> Sensible(im, base, g)) <==>
      forall i :: 0 <= i < |im.segments| && im.segments[i].memsz > 0 ==> Sensible(im, base, im.segments[i]);
  }

  /** An accepted segment of an image with a base ends within the window, if and only if it does not wrap around. */
  lemma AcceptedUnder(im: Elf.Image, base: nat, g: Elf.Segment)
    requires SegmentOk(im, base, g) && base != 0
    ensures g.vaddr + g.memsz <= Limit(base) <==> !Wraps(im.word, g)
  {
  }

  /** An image that is accepted although its second segment reaches past the last address, and gets no page for it. */
  lemma WrapLoads(im: Elf.Image)
    requires im == Elf.Image([], 4,
      [Elf.Segment(0, 0, 0, PAGE, true, false), Elf.Segment(0xFFFF_F000, 0, 0, 2 * PAGE, true, false)],
                             false, [], [], 0)
    ensures Parsed(im) && LoadOk(im, USER_CODE) && Meets(im.segments[1], 0xFFFF_F000)
    ensures forall off: nat :: Requested(im, 2, off, Any) <==> off == 0
  {
    assert Covers(4, im.segments[0], 0);
    assert Elf.End(4, im.segments[1]) == PAGE;
    forall off: nat
      ensures Requested(im, 2, off, Any) <==> off == 0
    {
      assert Covers(4, im.segments[0], off) <==> off < PAGE;
      assert !Covers(4, im.segments[1], off);
    }
  }

  lemma LoadOkIsValid(im: Elf.Image, base: nat)
    requires Parsed(im) && LoadOk(im, base)
    ensures Elf.ValidImage(im)
  {
    forall g | g in im.segments
      ensures Elf.SegmentFits(im, g)
    {
      var i :| 0 <= i < |im.segments| && im.segments[i] == g;
      assert g.memsz > 0 ==> SegmentOk(im, base, im.segments[i]);
    }
  }

  /** The loop over the segments. */
  method ReserveImage(k: Kernel, ghost s: State, pid: nat, ghost p: Process, base: nat, im: Elf.Image)
    returns (ok: bool, ghost pages: seq<PageRequest>)
    requires CanStart(s, pid, base) && Starting(s, k.m, pid, p, base, [])
    modifies k
    ensures Starting(s, k.m, pid, p, base, pages)
    ensures ok ==> pages == AllRequests(im, |im.segments|)
    ensures ok ==>
      forall i :: 0 <= i < |im.segments| && im.segments[i].memsz > 0 ==> SegmentOk(im, base, im.segments[i])
    ensures !ok ==> k.starved || exists i ::
      0 <= i < |im.segments| && im.segments[i].memsz > 0 && !SegmentOk(im, base, im.segments[i])
  {
    var n := 0;
    pages := [];
    while n < |im.segments|
      invariant n <= |im.segments| && Starting(s, k.m, pid, p, base, pages) && pages == AllRequests(im, n)
      invariant forall i :: 0 <= i < n && im.segments[i].memsz > 0 ==> SegmentOk(im, base, im.segments[i])
    {
      var g := im.segments[n];
      if g.memsz > 0 && !SegmentOk(im, base, g) {
        return false, pages;
      }
      ghost var before := pages;
      ok, pages := ReserveSegment(k, s, pid, p, base, im.word, g, before);
      if !ok {
        return;
      }
      n := n + 1;
    }
    ok := true;
  }

  // ---------- The loaded program ----------

  ghost predicate InImage(im: Elf.Image, base: nat, page: nat, right: Right) {
    page >= base && Requested(im, |im.segments|, page - base, right)
  }

  /** What one page of a freshly loaded process is. */
  ghost predicate PageLoaded(t: State, pid: nat, im: Elf.Image, base: nat, stack: Page, trampoline: Page, page: nat) {
    var pl := Place(pid, page);
    if page == TRAMPOLINE then pl in t.slots && t.slots[pl] == TRAMPOLINE_SLOT && View(t, pl) == Some(trampoline)
    else if page == STACK_PAGE then pl in t.slots && t.slots[pl] == STACK_SLOT && View(t, pl) == Some(stack)
    else
      && (pl in t.slots <==> InImage(im, base, page, Any))
      && (pl in t.slots ==> t.slots[pl].region.Tracked? && t.slots[pl].source.Anonymous? && t.slots[pl].prot.read)
      && (pl in t.slots ==> (t.slots[pl].prot.write <==> InImage(im, base, page, Writing)))
      && (pl in t.slots ==> (t.slots[pl].prot.exec <==> InImage(im, base, page, Executing)))
      && (pl in t.slots ==> View(t, pl) == TrackedPage(Program(im, base), page))
  }

  /** A process has been loaded and nobody else has changed. */
  ghost predicate Loaded(s: State, t: State, pid: nat, im: Elf.Image, base: nat, stack: Page, trampoline: Page) {
    && Good(t) && HalfForked(s, t, pid) && SameShared(s, t)
    && t.procs == s.procs[pid := Process(Program(im, base), STACK_PAGE, HEAP_START)]
    && forall page: nat :: PageLoaded(t, pid, im, base, stack, trampoline, page)
  }

  /** A process that may be half loaded: nobody else has changed. */
  ghost predicate HalfLoaded(s: State, t: State, pid: nat) {
    && Good(t) && HalfForked(s, t, pid) && SameShared(s, t)
    && pid in t.procs && t.procs - {pid} == s.procs
  }

  lemma StartingIsHalf(s: State, t: State, pid: nat, p: Process, base: nat, pages: seq<PageRequest>)
    requires CanStart(s, pid, base) && Starting(s, t, pid, p, base, pages)
    ensures HalfLoaded(s, t, pid)
  {
    SharedUntouched(s, t);
    forall q: Place | q.pid != pid
      ensures q in t.slots <==> q in s.slots
      ensures q in s.slots ==> t.slots[q] == s.slots[q]
    {
      OtherSlots(s.slots, pid, base, pages, q);
    }
    NoSlots(s, pid);
    assert t.procs - {pid} == s.procs;
  }

  lemma PlantedIsHalf(s: State, t: State, u: State, pid: nat, pl: Place, slot: Slot, f: nat, content: Page)
    requires HalfLoaded(s, t, pid) && pl.pid == pid && CanTrack(t, pl, slot) && Fresh(t, f)
    requires u == Planted(t, pl, slot, f, content)
    requires pl !in s.slots
    ensures HalfLoaded(s, u, pid) && View(u, pl) == Some(content) && ViewsBut(t, u, pl)
  {
    PlantStep(t, pl, slot, f, content, u);
    PlantedHalf(s, t, u, pid, pl, slot);
    SameSharedTwice(s, t, u);
  }

  lemma PlantedHalf(s: State, t: State, u: State, pid: nat, pl: Place, slot: Slot)
    requires HalfForked(s, t, pid) && pl.pid == pid && pl !in s.slots && u.slots == t.slots[pl := slot]
    requires ViewsBut(t, u, pl)
    ensures HalfForked(s, u, pid)
  {
    OthersUnseen(s, t, u, pid, pl);
  }

  /** A page with a frame of its own, which `load_elf_image` fills in. */
  method PlantPage(k: Kernel, ghost s: State, pid: nat, page: nat, slot: Slot, content: Page)
    returns (ok: bool, ghost f: nat)
    requires HalfLoaded(s, k.m, pid) && CanTrack(k.m, Place(pid, page), slot) && Place(pid, page) !in s.slots
    modifies k
    ensures HalfLoaded(s, k.m, pid)
    ensures ok ==> k.m == Planted(old(k.m), Place(pid, page), slot, f, content) && Fresh(old(k.m), f)
    ensures ok ==> View(k.m, Place(pid, page)) == Some(content) && ViewsBut(old(k.m), k.m, Place(pid, page))
    ensures !ok ==> k.starved
  {
    ghost var t := k.m;
    var pl := Place(pid, page);
    AbsentFacts(t, pl);
    ok, f := k.MapNewPage(pl, slot, content);
    if ok {
      PlantedIsHalf(s, t, k.m, pid, pl, slot, f, content);
    } else if k.m != t {
      TablesAreHalf(s, t, k.m, pid, TableOf(pl));
    }
  }

  lemma TablesAreHalf(s: State, t: State, u: State, pid: nat, table: Place)
    requires HalfLoaded(s, t, pid) && u == t.(tables := t.tables + {table})
    ensures HalfLoaded(s, u, pid)
  {
    TablesStep(t, table);
    SameSharedTwice(s, t, u);
    forall q: Place | q.pid != pid
      ensures View(u, q) == View(s, q)
    {
      assert View(u, q) == View(t, q);
    }
  }

  // ---------- The program is set ----------

  /** A process gets its program: only its own untouched pages change their meaning. */
  lemma ProgramStep(s: State, pid: nat, p: Process)
    requires Good(s) && pid in s.procs && ProcOk(p)
    ensures var t := Resized(s, pid, p); Good(t) && SameShared(s, t) && forall q: Place :: q.pid != pid ==>
      View(t, q) == View(s, q)
  {
    var t := Resized(s, pid, p);
    ResizeSlots(s, pid, p);
    SharedUntouched(s, t);
    forall q: Place | q.pid != pid
      ensures View(t, q) == View(s, q)
    {
      OtherProcess(s, t, q, pid);
    }
  }

  /** The slots and frames after both pages have been planted. */
  ghost predicate Furnished(s: State, t: State, pid: nat, base: nat, pages: seq<PageRequest>) {
    && t.slots == ImageSlots(s.slots, pid, base, pages)
      [Place(pid, STACK_PAGE) := STACK_SLOT][Place(pid, TRAMPOLINE) := TRAMPOLINE_SLOT]
    && forall page: nat :: page != STACK_PAGE && page != TRAMPOLINE ==> SlotCell(Place(pid, page)) !in t.resident
  }

  ghost predicate BothHeld(t: State, pid: nat, stack: Page, trampoline: Page) {
    && SlotCell(Place(pid, STACK_PAGE)) in t.resident && SlotCell(Place(pid, TRAMPOLINE)) in t.resident
    && Held(t.frames, t.resident, SlotCell(Place(pid, STACK_PAGE))) == Some(stack)
    && Held(t.frames, t.resident, SlotCell(Place(pid, TRAMPOLINE))) == Some(trampoline)
  }

  lemma PageIsLoaded(s: State, t: State, u: State, pid: nat, im: Elf.Image, base: nat, stack: Page, trampoline: Page,
      page: nat)
    requires forall pl :: pl in s.slots ==> pl.pid != pid
    requires Furnished(s, t, pid, base, AllRequests(im, |im.segments|))
    requires u == Resized(t, pid, Process(Program(im, base), STACK_PAGE, HEAP_START))
    requires BothHeld(t, pid, stack, trampoline)
    ensures PageLoaded(u, pid, im, base, stack, trampoline, page)
  {
    var pages := AllRequests(im, |im.segments|);
    ImageSlotsAre(s.slots, pid, base, pages, page);
    if page >= base {
      RequestsCover(im, |im.segments|, page - base, Any);
      RequestsCover(im, |im.segments|, page - base, Writing);
      RequestsCover(im, |im.segments|, page - base, Executing);
    }
  }

  lemma HalfIsLoaded(s: State, t: State, u: State, pid: nat, im: Elf.Image, base: nat, stack: Page, trampoline: Page)
    requires CanStart(s, pid, base) && HalfLoaded(s, t, pid) && Elf.ValidImage(im)
    requires Furnished(s, t, pid, base, AllRequests(im, |im.segments|))
    requires u == Resized(t, pid, Process(Program(im, base), STACK_PAGE, HEAP_START))
    requires BothHeld(t, pid, stack, trampoline)
    ensures Loaded(s, u, pid, im, base, stack, trampoline)
  {
    NoSlots(s, pid);
    PagesAreLoaded(s, t, u, pid, im, base, stack, trampoline);
    ProgramStep(t, pid, Process(Program(im, base), STACK_PAGE, HEAP_START));
    SameSharedTwice(s, t, u);
    ReprogramHalf(s, t, u, pid);
    SameOthers(s.procs, t.procs, pid, Process(Program(im, base), STACK_PAGE, HEAP_START));
  }

  lemma SameOthers(procs: map<nat, Process>, procs': map<nat, Process>, pid: nat, p: Process)
    requires pid !in procs && procs' - {pid} == procs
    ensures procs'[pid := p] == procs[pid := p]
  {
    assert forall q :: q in procs <==> q in procs' && q != pid;
    assert forall q :: q in procs ==> procs[q] == (procs' - {pid})[q] == procs'[q];
  }

  lemma PagesAreLoaded(s: State, t: State, u: State, pid: nat, im: Elf.Image, base: nat, stack: Page, trampoline: Page)
    requires forall pl :: pl in s.slots ==> pl.pid != pid
    requires Furnished(s, t, pid, base, AllRequests(im, |im.segments|))
    requires u == Resized(t, pid, Process(Program(im, base), STACK_PAGE, HEAP_START))
    requires BothHeld(t, pid, stack, trampoline)
    ensures forall page: nat :: PageLoaded(u, pid, im, base, stack, trampoline, page)
  {
    forall page: nat
      ensures PageLoaded(u, pid, im, base, stack, trampoline, page)
    {
      PageIsLoaded(s, t, u, pid, im, base, stack, trampoline, page);
    }
  }

  lemma ReprogramHalf(s: State, t: State, u: State, pid: nat)
    requires HalfForked(s, t, pid) && u.slots == t.slots && forall q: Place :: q.pid != pid ==> View(u, q) == View(t, q)
    ensures HalfForked(s, u, pid)
  {
    forall q: Place | q.pid != pid
      ensures View(u, q) == View(s, q)
    {
      assert View(u, q) == View(t, q);
    }
  }

  /** The stack page, for arguments that fit it, and the trampoline; then the program itself. */
  method Furnish(k: Kernel, ghost s: State, pid: nat, base: nat, im: Elf.Image, stack: Option<Page>, trampoline: Page,
      ghost p: Process)
    returns (ok: bool)
    requires CanStart(s, pid, base) && Elf.ValidImage(im)
    requires Starting(s, k.m, pid, p, base, AllRequests(im, |im.segments|))
    modifies k
    ensures ok ==> stack.Some? && Loaded(s, k.m, pid, im, base, stack.value, trampoline)
    ensures !ok ==> HalfLoaded(s, k.m, pid) && (k.starved || stack.None?)
  {
    ghost var pages := AllRequests(im, |im.segments|);
    ok := PlantBoth(k, s, pid, base, stack, trampoline, p, pages);
    if ok {
      ghost var v := k.m;
      k.m := k.m.(procs := k.m.procs[pid := Process(Program(im, base), STACK_PAGE, HEAP_START)]);
      HalfIsLoaded(s, v, k.m, pid, im, base, stack.value, trampoline);
    }
  }

  method PlantBoth(k: Kernel, ghost s: State, pid: nat, base: nat, stack: Option<Page>, trampoline: Page,
      ghost p: Process,
      ghost pages: seq<PageRequest>) returns (ok: bool)
    requires CanStart(s, pid, base) && Starting(s, k.m, pid, p, base, pages)
    modifies k
    ensures HalfLoaded(s, k.m, pid)
    ensures ok ==> stack.Some? && Furnished(s, k.m, pid, base, pages) && BothHeld(k.m, pid, stack.value, trampoline)
    ensures !ok ==> k.starved || stack.None?
  {
    ghost var t := k.m;
    StartingIsHalf(s, t, pid, p, base, pages);
    TrackableAfter(s, t, pid, p, base, pages, STACK_PAGE);
    TrackableAfter(s, t, pid, p, base, pages, TRAMPOLINE);
    ghost var f, f';
    ok, f := PlantPage(k, s, pid, STACK_PAGE, STACK_SLOT, if stack.Some? then stack.value else ZeroPage());
    if !ok || stack.None? {
      return false;
    }
    ghost var u := k.m;
    ok, f' := PlantPage(k, s, pid, TRAMPOLINE, TRAMPOLINE_SLOT, trampoline);
    if ok {
      NoneResident(s, pid);
      PlantedBoth(s, t, u, k.m, pid, p, base, pages, f, stack.value, f', trampoline);
    }
  }

  lemma TrackableAfter(s: State, t: State, pid: nat, p: Process, base: nat, pages: seq<PageRequest>, page: nat)
    requires CanStart(s, pid, base) && page % PAGE == 0
    requires t == s.(procs := s.procs[pid := p], slots := ImageSlots(s.slots, pid, base, pages))
    ensures CanTrack(t, Place(pid, page), STACK_SLOT) && CanTrack(t, Place(pid, page), TRAMPOLINE_SLOT)
    ensures Place(pid, page) !in s.slots
  {
    NoSlots(s, pid);
    ImageSlotsAre(s.slots, pid, base, pages, page);
    StillUnloaded(s, pid, Place(pid, page));
  }

  lemma PlantedBoth(s: State, t: State, u: State, v: State, pid: nat, p: Process, base: nat, pages: seq<PageRequest>,
      f: nat, stack: Page, f': nat, trampoline: Page)
    requires t == s.(procs := s.procs[pid := p], slots := ImageSlots(s.slots, pid, base, pages))
    requires forall page: nat :: SlotCell(Place(pid, page)) !in s.resident
    requires Fresh(t, f) && u == Planted(t, Place(pid, STACK_PAGE), STACK_SLOT, f, stack)
    requires Fresh(u, f') && v == Planted(u, Place(pid, TRAMPOLINE), TRAMPOLINE_SLOT, f', trampoline)
    ensures Furnished(s, v, pid, base, pages) && BothHeld(v, pid, stack, trampoline)
  {
    assert f in u.refs && f != f';
  }

  lemma NoneResident(s: State, pid: nat)
    requires Good(s) && pid !in s.procs
    ensures forall page: nat :: SlotCell(Place(pid, page)) !in s.resident
  {
    forall page: nat
      ensures SlotCell(Place(pid, page)) !in s.resident
    {
      StillUnloaded(s, pid, Place(pid, page));
    }
  }

  // ---------- Loading ----------

  /**
   `load_elf_image`: the whole program, or a process that can be thrown away. The arguments and
   the environment have been laid out in a stack page, unless they do not fit one.
   */
  method LoadImage(k: Kernel, pid: nat, im: Elf.Image, base: nat, stack: Option<Page>, trampoline: Page)
    returns (ok: bool)
    requires CanStart(k.m, pid, base) && Parsed(im)
    modifies k
    ensures ok ==> LoadOk(im, base) && stack.Some? && Loaded(old(k.m), k.m, pid, im, base, stack.value, trampoline)
    ensures !ok ==> HalfLoaded(old(k.m), k.m, pid) && (k.starved || !LoadOk(im, base) || stack.None?)
  {
    ghost var s := k.m;
    var p := Process(NoProgram, 0, HEAP_START);
    NoSlots(s, pid);
    ProcessStep(s, pid, p);
    k.m := k.m.(procs := k.m.procs[pid := p]);
    ghost var pages;
    ok, pages := ReserveImage(k, s, pid, p, base, im);
    StartingIsHalf(s, k.m, pid, p, base, pages);
    if !ok {
      return;
    }
    ok := CheckImage(k, s, pid, p, base, im, pages);
    if !ok {
      return;
    }
    LoadOkIsValid(im, base);
    ok := Furnish(k, s, pid, base, im, stack, trampoline, p);
  }

  /** The entry point lies in a reserved page, and every relocation in the window. */
  method CheckImage(k: Kernel, ghost s: State, pid: nat, ghost p: Process, base: nat, im: Elf.Image,
      ghost pages: seq<PageRequest>)
    returns (ok: bool)
    requires CanStart(s, pid, base) && Starting(s, k.m, pid, p, base, pages) && pages == AllRequests(im, |im.segments|)
    requires forall i :: 0 <= i < |im.segments| && im.segments[i].memsz > 0 ==> SegmentOk(im, base, im.segments[i])
    ensures ok <==> LoadOk(im, base)
  {
    var page := base + im.entry / PAGE * PAGE;
    NoSlots(s, pid);
    ImageSlotsAre(s.slots, pid, base, pages, page);
    RequestsCover(im, |im.segments|, im.entry / PAGE * PAGE, Any);
    if Place(pid, page) !in k.m.slots || page == 0 {
      return false;
    }
    var bits := seq(Elf.LOAD_WINDOW / PAGE, i => false);
    ok, bits := Elf.BuildBitmap(im.rela, bits);
    if ok {
      ok, bits := Elf.BuildBitmap(im.rel, bits);
    }
  }

  /** Starting a program in a new process; when that fails the process goes again without a trace. */
  method StartProgram(k: Kernel, pid: nat, im: Elf.Image, base: nat, stack: Option<Page>, trampoline: Page)
    returns (ok: bool)
    requires CanStart(k.m, pid, base) && Parsed(im)
    modifies k
    ensures Step(old(k.m), k.m, pid)
    ensures ok ==> LoadOk(im, base) && stack.Some? && Loaded(old(k.m), k.m, pid, im, base, stack.value, trampoline)
    ensures !ok ==> SameViews(old(k.m), k.m) && k.m.procs == old(k.m).procs
    ensures !ok ==> (k.starved || !LoadOk(im, base) || stack.None?)
  {
    ghost var s := k.m;
    ok := LoadImage(k, pid, im, base, stack, trampoline);
    NoSlots(s, pid);
    if !ok {
      k.AbandonChild(s, pid);
    }
    LoadSteps(s, k.m, pid);
  }

  lemma LoadSteps(s: State, t: State, pid: nat)
    requires Good(t) && (SameShared(s, t) || FewerShared(s, t)) && SlotsKept(s.slots, t.slots)
    requires s.procs.Keys <= t.procs.Keys && pid !in s.procs
    requires forall q :: q in t.slots ==> q in s.slots || q.pid == pid
    requires forall q: Place :: q.pid != pid ==> View(t, q) == View(s, q)
    ensures Step(s, t, pid)
  {
    if SameShared(s, t) {
      SameIsFewer(s, t);
    }
    ForkSteps(s, t, pid, pid);
  }

  // ---------- Lazy equals eager, for every order of faults ----------

  /**
   A page of the image shows the bytes that loading the whole image at once would have put
   there, unless a relocation crosses one of its ends, if and only if it lies outside the
   stack window or those bytes are zero: a fault in the stack window never reads the image.
   */
  lemma ImageShowsEager(image: Elf.Image, base: nat, off: nat, size: nat)
    requires Elf.ValidImage(image) && Elf.Extent(image, size) && off % PAGE == 0 && off + PAGE <= size
    requires Uncrossed(image, off)
    ensures var eager := Elf.Eager(image, base, size)[off..off + PAGE];
      TrackedPage(Program(image, base), base + off) == Some(eager) <==> !InStack(base + off) || eager == ZeroPage()
  {
    Elf.LazyIsEager(image, base, off, size);
  }

  /** No relocation crosses an end of the page. */
  ghost predicate Uncrossed(image: Elf.Image, off: nat) {
    && !Elf.Straddles(image.rela, off, image.word) && !Elf.Straddles(image.rel, off, image.word)
    && (off >= PAGE ==>
      !Elf.Straddles(image.rela, off - PAGE, image.word) && !Elf.Straddles(image.rel, off - PAGE, image.word))
  }

  /**
   A relocation that runs in from the page below is lost: this image is accepted, its page at
   4096 loads, and four of its bytes are not the eager ones.
   */
  lemma RunsInIsLost(im: Elf.Image)
    requires im == Elf.Image([], 8, [Elf.Segment(0, 0, 0, 2 * PAGE, true, false)],
                             true, [Elf.Rela(PAGE - 4, true, -1)], [], 0)
    ensures Parsed(im) && LoadOk(im, USER_CODE) && Elf.ValidImage(im) && Elf.Extent(im, 2 * PAGE)
    ensures Elf.LazyPage(im, USER_CODE, PAGE) == Some(Zeros(PAGE))
    ensures Elf.Eager(im, USER_CODE, 2 * PAGE)[PAGE] == 0x7F
  {
    var e := Elf.Rela(PAGE - 4, true, -1);
    assert Covers(8, im.segments[0], 0);
    LoadOkIsValid(im, USER_CODE);
    assert e.target / PAGE == 0;
    NothingCopied(im, PAGE);
    Elf.FixElsewhere(Zeros(PAGE), PAGE, im.rela, USER_CODE, 8);
    var memory := Zeros(2 * PAGE);
    assert Elf.EagerSegments(im, 2 * PAGE, 1) == memory;
    assert im.rela[..0] == [];
    assert Elf.EagerFix(memory, im.rela, USER_CODE, 8) == Elf.EagerStep(memory, e, USER_CODE, 8);
    TopOfBase(e, memory[e.target..e.target + 8]);
  }

  lemma NothingCopied(im: Elf.Image, off: nat)
    requires Elf.ValidImage(im) && |im.segments| == 1 && im.segments[0].filesz == 0
    ensures Elf.PageSegments(im, off, 1) == Zeros(PAGE)
  {
    assert Elf.PageSegments(im, off, 0) == Zeros(PAGE);
  }

  /** The byte at position 4 of the load base less one. */
  lemma TopOfBase(e: Elf.Relocation, word: seq<Byte>)
    requires |word| == 8 && e == Elf.Rela(PAGE - 4, true, -1)
    ensures Elf.FixedWord(e, USER_CODE, word)[4] == 0x7F
  {
    var value := USER_CODE - 1;
    assert value == 0x7F_FFFF_FFFF;
    assert Encode(value, 8)[4] == Encode(value / 256, 7)[3] == Encode(0x7F_FFFF, 6)[2];
    assert Encode(0x7F_FFFF, 6)[2] == Encode(0x7FFF, 5)[1] == Encode(0x7F, 4)[0] == 0x7F;
  }

  /** An accepted image with an entry that has no addend: the word in place and the load base add up. */
  lemma InPlaceWitness(im: Elf.Image)
    requires im == Elf.Image([0, 0x20, 0, 0, 0, 0, 0, 0], 8, [Elf.Segment(PAGE, 0, 8, PAGE, true, false)],
                             true, [], [Elf.Rel(PAGE, true)], PAGE)
    ensures USER_CODE == 0x80_0000_0000 && Parsed(im) && LoadOk(im, USER_CODE) && Elf.ValidImage(im)
    ensures var page := Elf.LazyPage(im, USER_CODE, PAGE);
      page.Some? && LoadedWords.WordAt(page.value, PAGE, PAGE, 8) == 0x80_0000_2000
  {
    assert Covers(8, im.segments[0], PAGE);
    LoadOkIsValid(im, USER_CODE);
    InPlaceWord(im);
  }

  lemma InPlaceWord(im: Elf.Image)
    requires im == Elf.Image([0, 0x20, 0, 0, 0, 0, 0, 0], 8, [Elf.Segment(PAGE, 0, 8, PAGE, true, false)],
                             true, [], [Elf.Rel(PAGE, true)], PAGE)
    requires Elf.ValidImage(im)
    ensures var page := Elf.LazyPage(im, USER_CODE, PAGE);
      page.Some? && LoadedWords.WordAt(page.value, PAGE, PAGE, 8) == 0x80_0000_2000
  {
    assert im.rela + im.rel == [Elf.Rel(PAGE, true)];
    assert Elf.InPage(Elf.Rel(PAGE, true), PAGE);
    Elf.LoadRefused(im, USER_CODE, PAGE);
    LoadedWords.RelocatedWord(im, USER_CODE, PAGE, 0);
    FileWord(im);
  }

  lemma FileWord(im: Elf.Image)
    requires im == Elf.Image([0, 0x20, 0, 0, 0, 0, 0, 0], 8, [Elf.Segment(PAGE, 0, 8, PAGE, true, false)],
                             true, [], [Elf.Rel(PAGE, true)], PAGE)
    requires Elf.ValidImage(im)
    ensures LoadedWords.WordAt(Elf.PageSegments(im, PAGE, 1), PAGE, PAGE, 8) == 0x2000
  {
    var page := Elf.PageSegments(im, PAGE, 1);
    forall i | 0 <= i < 8
      ensures page[i] == im.bytes[i]
    {
      LoadedWords.SegmentByte(im, PAGE, 1, 0, i);
    }
    assert page[0..8] == im.bytes;
    SmallWord(im.bytes);
  }

  lemma SmallWord(bytes: seq<Byte>)
    requires bytes == [0, 0x20, 0, 0, 0, 0, 0, 0]
    ensures Decode(bytes) == 0x2000
  {
    ZeroWord(6);
    assert bytes[1..][1..] == Zeros(6);
    assert Decode(bytes[1..]) == 0x20;
  }

  lemma {:induction false} ZeroWord(n: nat)
    ensures Decode(Zeros(n)) == 0
  {
    if n != 0 {
      assert Zeros(n)[1..] == Zeros(n - 1);
      ZeroWord(n - 1);
    }
  }

  /** An accepted image with a byte in the stack window, where every fault gives zeros. */
  lemma StackHidesImage(im: Elf.Image)
    requires im == Elf.Image([1], 8, [Elf.Segment(0x1D_0000, 0, 1, PAGE, true, false)], false, [], [], 0x1D_0000)
    ensures Parsed(im) && LoadOk(im, USER_CODE) && Elf.ValidImage(im) && Elf.Extent(im, 0x1D_0000 + PAGE)
    ensures Requested(im, 1, 0x1D_0000, Any)
    ensures TrackedPage(Program(im, USER_CODE), USER_CODE + 0x1D_0000) == Some(ZeroPage())
    ensures Elf.Eager(im, USER_CODE, 0x1D_0000 + PAGE)[0x1D_0000] == 1
  {
    assert Covers(8, im.segments[0], 0x1D_0000);
    LoadOkIsValid(im, USER_CODE);
    assert Elf.EagerSegments(im, 0x1D_0000 + PAGE, 0) == Zeros(0x1D_0000 + PAGE);
    assert Elf.FileBytes(im, im.segments[0]) == [1];
  }

  /** Faults in any number and order change no view. */
  lemma {:induction false} FaultsUnseen(states: seq<State>, pl: Place)
    requires states != [] && forall i :: 0 <= i < |states| - 1 ==> Invisible(states[i], states[i + 1])
    ensures View(states[|states| - 1], pl) == View(states[0], pl)
    decreases |states|
  {
    if |states| > 1 {
      FaultsUnseen(states[..|states| - 1], pl);
      assert Invisible(states[|states| - 2], states[|states| - 1]);
      assert View(states[|states| - 1], pl) == View(states[|states| - 2], pl);
    }
  }

  lemma HeldIsSeen(t: State, pl: Place)
    requires Good(t)
    ensures SlotCell(pl) in t.resident ==> Held(t.frames, t.resident, SlotCell(pl)) == View(t, pl)
  {
    if SlotCell(pl) in t.resident {
      FrameKnown(t, SlotCell(pl));
      assert CellOk(SlotCell(pl), t.slots, t.backings);
    }
  }

  /**
   After a program has been loaded and any faults have happened in any order, every page of
   the image that is in memory holds the bytes of the eager load.
   */
  lemma ResidentIsEager(s: State, states: seq<State>, pid: nat, im: Elf.Image, base: nat, stack: Page,
      trampoline: Page, off: nat, size: nat)
    requires states != [] && Loaded(s, states[0], pid, im, base, stack, trampoline)
    requires forall i :: 0 <= i < |states| - 1 ==> Invisible(states[i], states[i + 1])
    requires Elf.ValidImage(im) && Elf.Extent(im, size) && off + PAGE <= size
    requires Requested(im, |im.segments|, off, Any)
    requires base + off != TRAMPOLINE && !InStack(base + off) && Uncrossed(im, off)
    ensures var t, pl := states[|states| - 1], Place(pid, base + off);
      && View(t, pl) == Some(Elf.Eager(im, base, size)[off..off + PAGE])
      && (SlotCell(pl) in t.resident ==> Held(t.frames, t.resident, SlotCell(pl)) == View(t, pl))
  {
    var pl := Place(pid, base + off);
    FaultsUnseen(states, pl);
    ImageSeen(s, states[0], pid, im, base, stack, trampoline, off);
    ImageShowsEager(im, base, off, size);
    LastIsGood(states);
    HeldIsSeen(states[|states| - 1], pl);
  }

  /**
   Outside the stack window, a program just loaded can read exactly the pages that some segment
   covers and that can be built, and write those among them that some segment wants to write.
   */
  lemma LoadedGrants(s: State, t: State, pid: nat, im: Elf.Image, base: nat, stack: Page, trampoline: Page, page: nat)
    requires Loaded(s, t, pid, im, base, stack, trampoline)
    requires page % PAGE == 0 && page != TRAMPOLINE && page != STACK_PAGE && !InStack(page)
    ensures var there := InImage(im, base, page, Any) && TrackedPage(Program(im, base), page).Some?;
      && (Accessible(t, pid, page, false) <==> there)
      && (Accessible(t, pid, page, true) <==> there && InImage(im, base, page, Writing))
  {
    Access.AccessIs(t, pid, page);
    assert PageLoaded(t, pid, im, base, stack, trampoline, page);
  }

  /** The stack page can be read and written, and the signal trampoline read and executed. */
  lemma LoadedFurniture(s: State, t: State, pid: nat, im: Elf.Image, base: nat, stack: Page, trampoline: Page)
    requires Loaded(s, t, pid, im, base, stack, trampoline)
    ensures Place(pid, STACK_TOP - PAGE) in t.slots && Place(pid, 0x80_0280_0000) in t.slots
    ensures t.slots[Place(pid, STACK_TOP - PAGE)].prot == Prot(true, true, false)
    ensures t.slots[Place(pid, 0x80_0280_0000)].prot == Prot(true, false, true)
    ensures Accessible(t, pid, STACK_TOP - PAGE, true) && Accessible(t, pid, 0x80_0280_0000, false)
    ensures !Accessible(t, pid, 0x80_0280_0000, true)
  {
    assert PageLoaded(t, pid, im, base, stack, trampoline, STACK_PAGE);
    assert PageLoaded(t, pid, im, base, stack, trampoline, TRAMPOLINE);
    Access.AccessIs(t, pid, STACK_PAGE);
    Access.AccessIs(t, pid, TRAMPOLINE);
  }

  lemma ImageSeen(s: State, t: State, pid: nat, im: Elf.Image, base: nat, stack: Page, trampoline: Page, off: nat)
    requires Loaded(s, t, pid, im, base, stack, trampoline) && Requested(im, |im.segments|, off, Any)
    requires base + off != TRAMPOLINE && !InStack(base + off)
    ensures View(t, Place(pid, base + off)) == TrackedPage(Program(im, base), base + off)
  {
    assert PageLoaded(t, pid, im, base, stack, trampoline, base + off);
    assert InImage(im, base, base + off, Any);
  }

  lemma LastIsGood(states: seq<State>)
    requires states != [] && Good(states[0])
    requires forall i :: 0 <= i < |states| - 1 ==> Invisible(states[i], states[i + 1])
    ensures Good(states[|states| - 1])
  {
    if |states| > 1 {
      var n := |states| - 2;
      assert Invisible(states[n], states[n + 1]);
    }
  }
}

/**
 `mmap` and `munmap` as a process calls them: the table of mapping records chooses the
 address, and the records stay the mapping slots of the process (xscore/kernel/process.c).
 */
module AddressSpaces {
  import opened Bytes
  import opened Machine
  import opened Faults
  import opened Access
  import opened Reserving
  import opened Forking
  import opened Teardown
  import opened Protecting
  import opened Objects
  import opened Runs
  import opened Placing
  import opened Kernels
  import opened Mapping
  import opened Loading
  import opened Execs
  import Elf
  import Records = MmapTable

  /** Some record is for the page. */
  ghost predicate Recorded(records: seq<Records.Record>, page: nat) {
    exists i :: 0 <= i < |records| && records[i].page == page
  }

  ghost predicate IsMapping(slots: Slots, pl: Place) {
    pl in slots && slots[pl].region.Mapping?
  }

  /** The records are exactly the mapping slots of the process. */
  ghost predicate Mirrors(records: seq<Records.Record>, slots: Slots, pid: nat) {
    forall page: nat {:trigger Place(pid, page)} :: Recorded(records, page) <==> IsMapping(slots, Place(pid, page))
  }

  /** Nothing but mappings lies in the arena, as for every program that the loader accepts. */
  ghost predicate ArenaClear(slots: Slots, pid: nat) {
    forall pl :: pl in slots && pl.pid == pid && MMAP_START <= pl.page < MMAP_END ==> slots[pl].region.Mapping?
  }

  /** How the address space of a process is laid out, whatever it does. */
  ghost predicate Arranged(records: seq<Records.Record>, slots: Slots, pid: nat) {
    Mirrors(records, slots, pid) && ArenaClear(slots, pid)
  }

  /** A page is a mapping as before, and nothing else came to lie in the arena. */
  ghost predicate PageStays(slots: Slots, pid: nat, slots': Slots, pid': nat, page: nat) {
    && (IsMapping(slots', Place(pid', page)) <==> IsMapping(slots, Place(pid, page)))
    && (MMAP_START <= page < MMAP_END && Place(pid', page) in slots' ==> Place(pid, page) in slots)
  }

  lemma StaysArranged(records: seq<Records.Record>, slots: Slots, pid: nat, slots': Slots, pid': nat)
    requires Arranged(records, slots, pid)
    requires forall page: nat :: PageStays(slots, pid, slots', pid', page)
    ensures Arranged(records, slots', pid')
  {
    forall page: nat
      ensures Recorded(records, page) <==> IsMapping(slots', Place(pid', page))
    {
      assert PageStays(slots, pid, slots', pid', page);
    }
    forall pl | pl in slots' && pl.pid == pid' && MMAP_START <= pl.page < MMAP_END
      ensures slots'[pl].region.Mapping?
    {
      assert PageStays(slots, pid, slots', pid', pl.page) && pl == Place(pid', pl.page);
      assert IsMapping(slots, Place(pid, pl.page));
    }
  }

  /** Faults in any number, of any process, keep the arrangement. */
  lemma FaultsKeepArranged(records: seq<Records.Record>, s: State, t: State, pid: nat)
    requires Arranged(records, s.slots, pid) && Invisible(s, t)
    ensures Arranged(records, t.slots, pid) && (Good(s) && HeapWhole(s, pid) ==> HeapWhole(t, pid))
  {
    if Good(s) && HeapWhole(s, pid) {
      FaultsKeepHeap(s, t, pid);
    }
    forall page: nat
      ensures PageStays(s.slots, pid, t.slots, pid, page)
    {
      assert PlaceEases(s, t, Place(pid, page));
      assert IsMapping(t.slots, Place(pid, page)) ==>
        SlotOk(Place(pid, page), t.slots[Place(pid, page)], t.backings, t.procs);
    }
    StaysArranged(records, s.slots, pid, t.slots, pid);
  }

  lemma FaultsKeepHeap(s: State, t: State, pid: nat)
    requires Good(s) && HeapWhole(s, pid) && Invisible(s, t)
    ensures HeapWhole(t, pid)
  {
    assert ProcOk(s.procs[pid]) && ProcEases(s.procs[pid], t.procs[pid]);
    forall page: nat
      ensures HeapPageStays(s.slots, pid, t.slots, pid, page)
    {
      assert PlaceEases(s, t, Place(pid, page));
      assert Place(pid, page) in t.slots ==> SlotOk(Place(pid, page), t.slots[Place(pid, page)], t.backings, t.procs);
    }
    HeapStays(s, pid, t, pid);
  }

  /** Moving the break keeps the arrangement: the heap ends below the arena. */
  lemma BreakKeepsArranged(records: seq<Records.Record>, s: State, t: State, pid: nat, from: nat, to: nat)
    requires Arranged(records, s.slots, pid) && to <= MAX_HEAP_PAGES
    requires HeapGrown(s, t, pid, from, to) || t.slots == s.slots - HeapAbove(s, pid, to)
    ensures Arranged(records, t.slots, pid)
  {
    forall page: nat
      ensures PageStays(s.slots, pid, t.slots, pid, page)
    {
      assert InHeap(Place(pid, page), pid, from, to) ==> page < HEAP_END <= MMAP_START;
    }
    StaysArranged(records, s.slots, pid, t.slots, pid);
  }

  lemma ProtectKeepsArranged(records: seq<Records.Record>, s: State, t: State, pid: nat, done: set<Place>, prot: Prot)
    requires Arranged(records, s.slots, pid) && Reprotected(s.slots, t.slots, done, prot)
    ensures Arranged(records, t.slots, pid)
    ensures Good(s) && HeapWhole(s, pid) && t.procs == s.procs ==> HeapWhole(t, pid)
  {
    if Good(s) && HeapWhole(s, pid) && t.procs == s.procs {
      assert ProcOk(s.procs[pid]);
      HeapStays(s, pid, t, pid);
    }
    forall page: nat
      ensures PageStays(s.slots, pid, t.slots, pid, page)
    {
    }
    StaysArranged(records, s.slots, pid, t.slots, pid);
  }

  /** A child has the arrangement of its parent, and the records that it copies. */
  lemma ChildIsArranged(records: seq<Records.Record>, s: State, t: State, parent: nat, child: nat)
    requires Arranged(records, s.slots, parent)
    requires forall page: nat :: SlotInherited(s, t, parent, child, page)
    ensures Arranged(records, t.slots, child)
    ensures Good(s) && HeapWhole(s, parent) && child in t.procs && t.procs[child] == s.procs[parent] ==>
      HeapWhole(t, child)
  {
    if Good(s) && HeapWhole(s, parent) && child in t.procs && t.procs[child] == s.procs[parent] {
      assert ProcOk(s.procs[parent]);
      forall page: nat
        ensures HeapPageStays(s.slots, parent, t.slots, child, page)
      {
        assert SlotInherited(s, t, parent, child, page);
      }
      HeapStays(s, parent, t, child);
    }
    forall page: nat
      ensures PageStays(s.slots, parent, t.slots, child, page)
    {
      assert SlotInherited(s, t, parent, child, page);
    }
    StaysArranged(records, s.slots, parent, t.slots, child);
  }

  /** What is free for the table is free in the address space. */
  lemma FreeIsFree(records: seq<Records.Record>, s: State, pid: nat, base: nat, pages: nat)
    requires Arranged(records, s.slots, pid)
    requires base % PAGE == 0 && Records.Free(records, base, pages)
    ensures RangeFree(s, pid, base, pages)
  {
    assert pages * PAGE <= MMAP_END - base;
    forall i: nat | i < pages
      ensures PlaceAt(pid, base, i) !in s.slots
    {
      var page := base + i * PAGE;
      assert base <= page < base + pages * PAGE;
      assert Place(pid, page) == PlaceAt(pid, base, i);
      assert !Recorded(records, page);
    }
  }

  lemma MirrorsMore(records: seq<Records.Record>, s: State, t: State, pid: nat, base: nat, pages: nat, prot: Prot,
      source: Source, more: seq<Records.Record>)
    requires Mirrors(records, s.slots, pid) && t.slots == Extended(s.slots, pid, base, pages, prot, source)
    requires |more| == pages && forall i :: 0 <= i < pages ==> more[i].page == base + i * PAGE
    ensures Mirrors(records + more, t.slots, pid) && (ArenaClear(s.slots, pid) ==> ArenaClear(t.slots, pid))
  {
    ExtendedKeys(s.slots, pid, base, pages, prot, source);
    forall page: nat
      ensures Recorded(records + more, page) <==> IsMapping(t.slots, Place(pid, page))
    {
      RecordedOfBoth(records, more, page);
      NewPage(s, t, pid, base, pages, prot, source, more, page);
    }
    forall pl | pl in t.slots && pl.pid == pid && !IsMapping(t.slots, pl)
      ensures pl in s.slots && !IsMapping(s.slots, pl)
    {
      NewPage(s, t, pid, base, pages, prot, source, more, pl.page);
      assert pl == Place(pid, pl.page);
    }
  }

  lemma RecordedOfBoth(a: seq<Records.Record>, b: seq<Records.Record>, page: nat)
    ensures Recorded(a + b, page) <==> Recorded(a, page) || Recorded(b, page)
  {
    if Recorded(a, page) {
      var i :| 0 <= i < |a| && a[i].page == page;
      assert (a + b)[i].page == page;
    }
    if Recorded(b, page) {
      var i :| 0 <= i < |b| && b[i].page == page;
      assert (a + b)[|a| + i].page == page;
    }
  }

  lemma NewPage(s: State, t: State, pid: nat, base: nat, pages: nat, prot: Prot, source: Source,
      more: seq<Records.Record>, page: nat)
    requires t.slots == Extended(s.slots, pid, base, pages, prot, source)
    requires |more| == pages && forall i :: 0 <= i < pages ==> more[i].page == base + i * PAGE
    ensures IsMapping(t.slots, Place(pid, page)) <==> IsMapping(s.slots, Place(pid, page)) || Recorded(more, page)
    ensures Place(pid, page) in t.slots && !IsMapping(t.slots, Place(pid, page)) ==>
      Place(pid, page) in s.slots && !IsMapping(s.slots, Place(pid, page))
  {
    ExtendedKeys(s.slots, pid, base, pages, prot, source);
    var pl := Place(pid, page);
    if pl in Pages(pid, base, pages) {
      var i: nat :| i < pages && PlaceAt(pid, base, i) == pl;
      ExtendedAt(s.slots, pid, base, pages, prot, source, i);
      assert more[i].page == page;
    } else {
      forall i | 0 <= i < |more|
        ensures more[i].page != page
      {
        assert PlaceAt(pid, base, i) in Pages(pid, base, pages);
      }
    }
  }

  /** The table has no room for the pages, or the arena has none and any place would do. */
  ghost predicate NoRoom(records: seq<Records.Record>, fixed: bool, length: nat) {
    || |records| + PageCount(length) > Records.CAPACITY
    || (!fixed && Records.NoneFree(records, MMAP_START, MMAP_END, PageCount(length)))
  }

  /** The address that was asked for is not aligned, or taken. */
  ghost predicate Misplaced(records: seq<Records.Record>, address: nat, fixed: bool, length: nat) {
    fixed && !(address % PAGE == 0 && Records.Free(records, address, PageCount(length)))
  }

  /** The new pages show what was asked for, and no other page changes. */
  ghost predicate Shown(s: State, t: State, pid: nat, base: nat, length: nat, request: Request)
    requires Known(s, request)
  {
    ViewsOutside(s, t, Pages(pid, base, PageCount(length))) && BytesShown(s, t, pid, base, length, request)
  }

  /** Bits and tags that the records keep for each page. */
  datatype Tags = Tags(flags: nat, protection: nat, backing: nat, offset: nat)

  function NewRecords(base: nat, length: nat, tags: Tags): (r: seq<Records.Record>)
    ensures |r| == PageCount(length)
    ensures forall i :: 0 <= i < |r| ==> r[i] == Records.Record(base + i * PAGE, 0, tags.flags, tags.protection, false,
                                                                tags.backing, tags.offset + i * PAGE)
  {
    Records.Fresh(base, PageCount(length), tags.flags, tags.protection, tags.backing, tags.offset)
  }

  /**
   The whole of `mmap`: the address is the one asked for, or the first free run; a fixed address
   that is taken or not aligned is EINVAL, a full table or arena is ENOMEM, and otherwise the
   request decides. The records stay the mapping slots.
   */
  method MmapCall(k: Kernel, table: Records.Table, pid: nat, address: nat, fixed: bool, length: nat, prot: Prot,
      request: Request, tags: Tags)
    returns (r: Outcome, base: nat)
    requires k.Valid() && pid in k.m.procs && Known(k.m, request)
    requires table.Valid() && Arranged(table.Contents(), k.m.slots, pid)
    modifies k, table, table.records
    ensures k.Valid() && Step(old(k.m), k.m, pid)
    ensures table.Valid() && table.records == old(table.records) && Arranged(table.Contents(), k.m.slots, pid)
    ensures r != Done ==> k.m == old(k.m) && table.Contents() == old(table.Contents())
    ensures length == 0 ==> r == Einval
    ensures r == Enomem ==> k.starved || NoRoom(old(table.Contents()), fixed, length)
    ensures length > 0 && NoRoom(old(table.Contents()), fixed, length) ==> r == Enomem
    ensures length > 0 && !NoRoom(old(table.Contents()), fixed, length) ==>
      if Misplaced(old(table.Contents()), address, fixed, length) then r == Einval
      else r == Enomem || r == MapRefusal(old(k.m), request, length, prot)
    ensures r == Done ==> RangeFree(old(k.m), pid, base, PageCount(length)) && (fixed ==> base == address)
    ensures r == Done ==> Granted(old(k.m), k.m, pid, base, length, prot, request)
    ensures r == Done ==> Shown(old(k.m), k.m, pid, base, length, request)
    ensures r == Done ==> Opened(old(k.m), k.m, pid, base, length, prot)
    ensures HeapWhole(old(k.m), pid) ==> HeapWhole(k.m, pid)
    ensures r == Done ==> table.Contents() == old(table.Contents()) + NewRecords(base, length, tags)
  {
    ghost var s := k.m;
    Unchanged(s);
    InvisibleSteps(s, s, pid);
    base := 0;
    if length == 0 {
      return Einval, 0;
    }
    var placed := table.Place(address, fixed, PageCount(length));
    if !placed.At? {
      return if placed.Invalid? then Einval else Enomem, 0;
    }
    base := placed.base;
    r := MapAt(k, table, pid, base, length, prot, request, tags);
  }

  /** `mmap` at a run that the table has found to be free. */
  method MapAt(k: Kernel, table: Records.Table, pid: nat, base: nat, length: nat, prot: Prot, request: Request,
      tags: Tags)
    returns (r: Outcome)
    requires k.Valid() && pid in k.m.procs && Known(k.m, request) && length > 0
    requires table.Valid() && Arranged(table.Contents(), k.m.slots, pid)
    requires table.count + PageCount(length) <= Records.CAPACITY && base % PAGE == 0
    requires Records.Free(table.Contents(), base, PageCount(length))
    modifies k, table, table.records
    ensures k.Valid() && Step(old(k.m), k.m, pid)
    ensures table.Valid() && table.records == old(table.records) && Arranged(table.Contents(), k.m.slots, pid)
    ensures r != Done ==> k.m == old(k.m) && table.Contents() == old(table.Contents())
    ensures if r == Enomem then k.starved else r == MapRefusal(old(k.m), request, length, prot)
    ensures RangeFree(old(k.m), pid, base, PageCount(length))
    ensures r == Done ==> Granted(old(k.m), k.m, pid, base, length, prot, request)
    ensures r == Done ==> Shown(old(k.m), k.m, pid, base, length, request)
    ensures r == Done ==> Opened(old(k.m), k.m, pid, base, length, prot)
    ensures HeapWhole(old(k.m), pid) ==> HeapWhole(k.m, pid)
    ensures r == Done ==> table.Contents() == old(table.Contents()) + NewRecords(base, length, tags)
  {
    ghost var s, records := k.m, table.Contents();
    FreeIsFree(records, s, pid, base, PageCount(length));
    r := Mmap(k, pid, base, length, prot, request);
    if r == Done {
      table.Append(base, PageCount(length), tags.flags, tags.protection, tags.backing, tags.offset);
      GrantedMirrors(records, s, k.m, pid, base, length, prot, request, tags);
      if HeapWhole(s, pid) {
        GrantedHeap(s, k.m, pid, base, length, prot, request);
      }
    }
  }

  lemma GrantedMirrors(records: seq<Records.Record>, s: State, t: State, pid: nat, base: nat, length: nat, prot: Prot,
      request: Request, tags: Tags)
    requires Arranged(records, s.slots, pid) && Known(s, request) && Granted(s, t, pid, base, length, prot, request)
    ensures Arranged(records + NewRecords(base, length, tags), t.slots, pid)
  {
    var source, made :| Leads(s, request, length, source, made)
      && Reserved(s, t, pid, base, length, prot, source, made);
    MirrorsMore(records, s, t, pid, base, PageCount(length), prot, source,
      NewRecords(base, length, tags));
  }

  lemma GrantedHeap(s: State, t: State, pid: nat, base: nat, length: nat, prot: Prot, request: Request)
    requires Good(s) && HeapWhole(s, pid) && Known(s, request) && RangeFree(s, pid, base, PageCount(length))
    requires Granted(s, t, pid, base, length, prot, request)
    ensures HeapWhole(t, pid)
  {
    var source, made :| Leads(s, request, length, source, made)
      && Reserved(s, t, pid, base, length, prot, source, made);
    assert ProcOk(s.procs[pid]);
    forall page: nat
      ensures HeapPageStays(s.slots, pid, t.slots, pid, page)
    {
      ExtendedKeys(s.slots, pid, base, PageCount(length), prot, source);
      if Place(pid, page) in Pages(pid, base, PageCount(length)) {
        var i: nat :| i < PageCount(length) && PlaceAt(pid, base, i) == Place(pid, page);
        ExtendedAt(s.slots, pid, base, PageCount(length), prot, source, i);
      }
    }
    HeapStays(s, pid, t, pid);
  }

  /** The whole of `munmap`. */
  method MunmapCall(k: Kernel, table: Records.Table, pid: nat, address: nat, length: nat) returns (ok: bool)
    requires k.Valid() && pid in k.m.procs
    requires table.Valid() && Arranged(table.Contents(), k.m.slots, pid)
    modifies k, table, table.records
    ensures k.Valid() && Step(old(k.m), k.m, pid) && ok == Kernel.RangeOk(address, length)
    ensures table.Valid() && table.records == old(table.records) && Arranged(table.Contents(), k.m.slots, pid)
    ensures !ok ==> k.m == old(k.m) && table.Contents() == old(table.Contents())
    ensures ok ==> ViewsOutside(old(k.m), k.m, MappingsIn(old(k.m), pid, address, address + RoundUp(length)))
    ensures ok ==> RangeGone(old(k.m), k.m, pid, address, length)
    ensures HeapWhole(old(k.m), pid) ==> HeapWhole(k.m, pid)
  {
    ghost var s, records := k.m, table.Contents();
    ok := k.Munmap(pid, address, length);
    if ok {
      if HeapWhole(s, pid) {
        assert ProcOk(s.procs[pid]);
        HeapStays(s, pid, k.m, pid);
      }
      table.Remove(address, address + RoundUp(length));
      RemovedMirrors(records, table.Contents(), s, k.m, pid, address, length);
    }
  }

  ghost predicate RangeGone(s: State, t: State, pid: nat, address: nat, length: nat) {
    t.slots == s.slots - MappingsIn(s, pid, address, address + RoundUp(length))
  }

  lemma RemovedMirrors(records: seq<Records.Record>, fewer: seq<Records.Record>, s: State, t: State, pid: nat,
      address: nat, length: nat)
    requires Arranged(records, s.slots, pid)
    requires t.slots == s.slots - MappingsIn(s, pid, address, address + RoundUp(length))
    requires forall r :: r in fewer <==> r in records && !(address <= r.page < address + RoundUp(length))
    ensures Arranged(fewer, t.slots, pid)
  {
    forall page: nat
      ensures Recorded(fewer, page) <==> IsMapping(t.slots, Place(pid, page))
    {
      FewerRecorded(records, fewer, page, address, address + RoundUp(length));
      assert Place(pid, page) in MappingsIn(s, pid, address, address + RoundUp(length)) <==>
        IsMapping(s.slots, Place(pid, page)) && address <= page < address + RoundUp(length);
    }
  }

  lemma FewerRecorded(records: seq<Records.Record>, fewer: seq<Records.Record>, page: nat, address: nat, end: nat)
    requires forall r :: r in fewer <==> r in records && !(address <= r.page < end)
    ensures Recorded(fewer, page) <==> Recorded(records, page) && !(address <= page < end)
  {
    if Recorded(fewer, page) {
      var i :| 0 <= i < |fewer| && fewer[i].page == page;
      assert fewer[i] in fewer;
      var j :| 0 <= j < |records| && records[j] == fewer[i];
    }
    if Recorded(records, page) && !(address <= page < end) {
      var i :| 0 <= i < |records| && records[i].page == page;
      assert records[i] in records && records[i] in fewer;
      var j :| 0 <= j < |fewer| && fewer[j] == records[i];
    }
  }

  /** A program that has just been loaded at one of the two bases leaves the arena to its mappings. */
  lemma LoadedIsArranged(t: State, pid: nat, im: Elf.Image, base: nat, stack: Page, trampoline: Page)
    requires LoadOk(im, base) && (base == USER_CODE || base == 0)
    requires forall page: nat :: PageLoaded(t, pid, im, base, stack, trampoline, page)
    ensures Arranged([], t.slots, pid)
    ensures pid in t.procs && t.procs[pid].heapBreak == HEAP_START ==> HeapWhole(t, pid)
  {
    forall pl | pl in t.slots && pl.pid == pid
      ensures !(MMAP_START <= pl.page < MMAP_END) && t.slots[pl].region.Tracked?
    {
      ImagePageBelow(t, pid, im, base, stack, trampoline, pl.page);
      assert pl == Place(pid, pl.page);
    }
  }

  lemma ImagePageBelow(t: State, pid: nat, im: Elf.Image, base: nat, stack: Page, trampoline: Page, page: nat)
    requires LoadOk(im, base) && (base == USER_CODE || base == 0) && Place(pid, page) in t.slots
    requires PageLoaded(t, pid, im, base, stack, trampoline, page)
    ensures page < MMAP_START && t.slots[Place(pid, page)].region.Tracked?
  {
    if page != STACK_PAGE && page != TRAMPOLINE {
      var i :| 0 <= i < |im.segments| && Covers(im.word, im.segments[i], page - base);
      assert SegmentOk(im, base, im.segments[i]);
    }
  }

  /** So is a process that `execve` has replaced: its records start anew. */
  lemma ReplacedIsArranged(s: State, t: State, pid: nat, im: Elf.Image, base: nat, stack: Page, trampoline: Page)
    requires Replaced(s, t, pid, im, base, stack, trampoline) && LoadOk(im, base) && (base == USER_CODE || base == 0)
    ensures Arranged([], t.slots, pid) && HeapWhole(t, pid)
  {
    LoadedIsArranged(t, pid, im, base, stack, trampoline);
  }
}

/**
 Copies between the kernel and user memory (xscore/kernel/usercopy.c): the range is made
 present and writable page by page, then bytes or aligned words go through the page table.
 */
module UserCopy {
  import opened Bytes
  import opened Machine
  import opened Steps
  import opened Moves
  import opened Slotting
  import opened Changes
  import opened Faults
  import opened Teardown
  import opened Sharing
  import opened Runs
  import opened Kernels

  // ---------- One store through the page table ----------

  /** Two places whose bytes are one: the same place, or two mappings of one shared page. */
  ghost predicate SameBytes(slots: Slots, q: Place, pl: Place) {
    q == pl || (IsShared(slots, q) && IsShared(slots, pl) && slots[q].source == slots[pl].source)
  }

  /** What a store through a writable entry may rely on. */
  lemma WritableFacts(s: State, pl: Place)
    requires Good(s) && pl in s.pt && s.pt[pl].writable
    ensures pl in s.slots && SlotCell(pl) in s.resident && s.resident[SlotCell(pl)] == s.pt[pl].frame
    ensures s.pt[pl].frame in s.frames && s.slots[pl].prot.write && !s.slots[pl].cow
    ensures IsShared(s.slots, pl) ==> s.slots[pl].source.backing in s.backings
    ensures IsShared(s.slots, pl) ==> SealWrite !in s.backings[s.slots[pl].source.backing].seals
  {
    assert PteOk(pl, s.pt[pl], s.tables, s.slots, s.resident);
    FrameKnown(s, SlotCell(pl));
    assert SlotOk(pl, s.slots[pl], s.backings, s.procs);
  }

  /** The frame behind a writable entry holds the bytes of that place and of nothing else. */
  lemma FrameAlone(resident: Residents, slots: Slots, pl: Place, c: Cell)
    requires Separated(resident, slots) && SharedAgree(resident, slots)
    requires pl in slots && slots[pl].prot.write && !slots[pl].cow && SlotCell(pl) in resident
    requires c in resident && resident[c] == resident[SlotCell(pl)]
    ensures c == SlotCell(pl) || (IsShared(slots, pl) && Key(slots, c) == Key(slots, SlotCell(pl)))
    ensures !c.CacheCell?
  {
    assert !IsShared(slots, pl) ==> Owns(slots, SlotCell(pl));
  }

  lemma StoreKeeps(s: State, pl: Place, content: Page, t: State)
    requires Good(s) && pl in s.pt && s.pt[pl].writable && t == Stored(s, s.pt[pl].frame, content)
    ensures Good(t)
  {
    WritableFacts(s, pl);
    forall c | c in s.resident && c.CacheCell?
      ensures s.resident[c] != s.pt[pl].frame
    {
      if s.resident[c] == s.resident[SlotCell(pl)] {
        FrameAlone(s.resident, s.slots, pl, c);
      }
    }
    StoreInv(s, s.pt[pl].frame, content);
  }

  lemma StoreSeen(s: State, pl: Place, content: Page, t: State, q: Place)
    requires Separated(s.resident, s.slots) && SharedAgree(s.resident, s.slots)
    requires CellsOk(s.resident, s.slots, s.backings)
    requires pl in s.slots && SlotCell(pl) in s.resident && s.resident[SlotCell(pl)] in s.frames
    requires s.slots[pl].prot.write && !s.slots[pl].cow
    requires forall p :: p in s.slots && s.slots[p].source.Shared? ==> !s.slots[p].region.Tracked?
    requires t == Stored(s, s.resident[SlotCell(pl)], content)
    ensures View(t, q) == if SameBytes(s.slots, q, pl) then Some(content) else View(s, q)
  {
    var f := s.resident[SlotCell(pl)];
    StoreViews(s, f, content, q);
    var c := ByteCell(s, q);
    if c in s.resident && s.resident[c] == f {
      FrameAlone(s.resident, s.slots, pl, c);
    }
    assert IsShared(s.slots, pl) ==> BackingCell(s.slots[pl].source.backing, s.slots[pl].source.index) in s.resident;
  }

  lemma SharedNotTracked(s: State)
    requires Good(s)
    ensures forall p :: p in s.slots && s.slots[p].source.Shared? ==> !s.slots[p].region.Tracked?
  {
    forall p | p in s.slots && s.slots[p].source.Shared?
      ensures !s.slots[p].region.Tracked?
    {
      assert SlotOk(p, s.slots[p], s.backings, s.procs);
    }
  }

  /** Only the page of the backing that the place shows can change. */
  lemma StoreBacking(s: State, pl: Place, content: Page, t: State, b: nat, k: nat)
    requires Separated(s.resident, s.slots) && SharedAgree(s.resident, s.slots)
    requires pl in s.slots && SlotCell(pl) in s.resident && s.resident[SlotCell(pl)] in s.frames
    requires s.slots[pl].prot.write && !s.slots[pl].cow
    requires t == Stored(s, s.resident[SlotCell(pl)], content)
    ensures !(IsShared(s.slots, pl) && s.slots[pl].source == Shared(b, k)) ==>
      BackingPage(t, b, k) == BackingPage(s, b, k)
  {
    var c := BackingCell(b, k);
    if c in s.resident && s.resident[c] == s.resident[SlotCell(pl)] {
      FrameAlone(s.resident, s.slots, pl, c);
    }
  }

  lemma StoreGuards(s: State, pl: Place, content: Page, t: State)
    requires Good(s) && pl in s.pt && s.pt[pl].writable && t == Stored(s, s.pt[pl].frame, content)
    ensures Guarded(s, t)
  {
    WritableFacts(s, pl);
    forall b | b in s.backings && b in t.backings
      ensures SealsRespected(s, t, b)
    {
      if SealWrite in s.backings[b].seals {
        forall i: nat
          ensures BackingByte(t, b, i) == BackingByte(s, b, i)
        {
          StoreBacking(s, pl, content, t, b, i / PAGE);
        }
      }
    }
  }

  /**
   A store by a process: the places that show the stored bytes are exactly the place itself
   and the other mappings of the same shared page.
   */
  method StoreUser(k: Kernel, pl: Place, offset: nat, data: seq<Byte>)
    requires k.Valid() && pl in k.m.pt && k.m.pt[pl].writable && offset + |data| <= PAGE
    modifies k
    ensures k.Valid() && Step(old(k.m), k.m, pl.pid) && k.m == old(k.m).(frames := k.m.frames)
    ensures View(old(k.m), pl).Some?
    ensures forall q :: View(k.m, q) == if SameBytes(k.m.slots, q, pl)
                                        then Some(Patch(View(old(k.m), pl).value, offset, data)) else View(old(k.m), q)
  {
    ghost var s := k.m;
    WritableFacts(s, pl);
    var f := k.m.pt[pl].frame;
    var content := Patch(k.m.frames[f], offset, data);
    k.m := Stored(k.m, f, content);
    StoreKeeps(s, pl, content, k.m);
    StoreGuards(s, pl, content, k.m);
    StoreEverywhere(s, pl, content, k.m);
  }

  lemma StoreEverywhere(s: State, pl: Place, content: Page, t: State)
    requires Good(s) && pl in s.pt && s.pt[pl].writable && t == Stored(s, s.pt[pl].frame, content)
    ensures forall q :: View(t, q) == if SameBytes(s.slots, q, pl) then Some(content) else View(s, q)
    ensures Isolated(s, t, pl.pid)
  {
    WritableFacts(s, pl);
    SharedNotTracked(s);
    forall q
      ensures View(t, q) == if SameBytes(s.slots, q, pl) then Some(content) else View(s, q)
    {
      StoreSeen(s, pl, content, t, q);
    }
    StoreIsolates(s, t, pl, content);
  }

  lemma StoreIsolates(s: State, t: State, pl: Place, content: Page)
    requires t.slots == s.slots
    requires forall q :: View(t, q) == if SameBytes(s.slots, q, pl) then Some(content) else View(s, q)
    ensures Isolated(s, t, pl.pid)
  {
  }

  // ---------- Preparing a range ----------

  function PageAt(pid: nat, address: nat): Place {
    Place(pid, address / PAGE * PAGE)
  }

  /** Every address of the range is mapped, writably if asked. */
  ghost predicate Ready(pt: map<Place, Pte>, pid: nat, address: nat, length: nat, write: bool) {
    forall a: nat :: address <= a < address + length ==> EntryReady(pt, PageAt(pid, a), write)
  }

  /** All pages from the first up to `upto` are ready. */
  ghost predicate PagesReady(pt: map<Place, Pte>, pid: nat, first: nat, upto: nat, write: bool) {
    forall n: nat :: first <= n < upto ==> EntryReady(pt, Place(pid, n * PAGE), write)
  }

  lemma PagesStayReady(pt: map<Place, Pte>, pt': map<Place, Pte>, pid: nat, first: nat, upto: nat, write: bool)
    requires PagesReady(pt, pid, first, upto, write) && PtGrows(pt, pt')
    ensures PagesReady(pt', pid, first, upto, write)
  {
    forall n: nat | first <= n < upto
      ensures EntryReady(pt', Place(pid, n * PAGE), write)
    {
      assert EntryReady(pt, Place(pid, n * PAGE), write);
    }
  }

  lemma PagesMakeRange(pt: map<Place, Pte>, pid: nat, address: nat, length: nat, write: bool)
    requires length > 0 && PagesReady(pt, pid, address / PAGE, (address + length - 1) / PAGE + 1, write)
    ensures Ready(pt, pid, address, length, write)
  {
    forall a: nat | address <= a < address + length
      ensures EntryReady(pt, PageAt(pid, a), write)
    {
      assert address / PAGE <= a / PAGE < (address + length - 1) / PAGE + 1;
    }
  }

  lemma PageUnready(pt: map<Place, Pte>, pid: nat, address: nat, length: nat, write: bool, n: nat)
    requires length > 0 && address / PAGE <= n <= (address + length - 1) / PAGE
    requires !EntryReady(pt, Place(pid, n * PAGE), write)
    ensures !Ready(pt, pid, address, length, write)
  {
    var a := if n == address / PAGE then address else n * PAGE;
    assert address <= a < address + length && PageAt(pid, a) == Place(pid, n * PAGE);
  }

  /** Some page of the range cannot be accessed as asked. */
  ghost predicate Blocked(s: State, pid: nat, address: nat, length: nat, write: bool)
    requires pid in s.procs
  {
    exists n: nat :: address / PAGE <= n && n * PAGE < address + length && BlockedAt(s, pid, n, write)
  }

  ghost predicate BlockedAt(s: State, pid: nat, n: nat, write: bool)
    requires pid in s.procs
  {
    !Accessible(s, pid, n * PAGE, write)
  }

  lemma BlockedBefore(s: State, t: State, pid: nat, n: nat, write: bool)
    requires Invisible(s, t) && pid in s.procs && pid in t.procs && BlockedAt(t, pid, n, write)
    ensures BlockedAt(s, pid, n, write)
  {
    var page := n * PAGE;
    assert page % PAGE == 0;
    AccessStays(s, t, pid, page, write);
  }

  /** A page that is not ready after a fault could not be accessed before it, or memory ran out. */
  lemma FaultRefused(s: State, t: State, pid: nat, n: nat, write: bool, resolved: bool)
    requires pid in s.procs && !EntryReady(s.pt, Place(pid, n * PAGE), write)
    requires !EntryReady(t.pt, Place(pid, n * PAGE), write)
    requires resolved ==> Served(s, PageAt(pid, n * PAGE), t, write)
    requires !resolved ==> !Permitted(s, pid, n * PAGE, write)
    ensures BlockedAt(s, pid, n, write)
  {
    assert n * PAGE / PAGE == n;
  }

  /** One page of the range, by a fault if it is not ready yet. */
  method PreparePage(k: Kernel, pid: nat, page: nat, write: bool) returns (ok: bool)
    requires k.Valid() && pid in k.m.procs
    modifies k
    ensures Invisible(old(k.m), k.m)
    ensures ok <==> EntryReady(k.m.pt, Place(pid, page * PAGE), write)
    ensures !ok ==> k.starved || BlockedAt(old(k.m), pid, page, write)
  {
    var pl := Place(pid, page * PAGE);
    Unchanged(k.m);
    if EntryReady(k.m.pt, pl, write) {
      return true;
    }
    ghost var s := k.m;
    var resolved := k.HandlePageFault(pid, page * PAGE, write);
    ok := EntryReady(k.m.pt, pl, write);
    if !ok && (resolved || !Permitted(s, pid, page * PAGE, write)) {
      FaultRefused(s, k.m, pid, page, write, resolved);
    }
  }

  /**
   The whole range is present at once, and writable at once, because later faults never
   take back what earlier ones granted; no process sees a byte change.
   */
  method PrepareRange(k: Kernel, pid: nat, address: nat, length: nat, write: bool) returns (ok: bool)
    requires k.Valid() && pid in k.m.procs
    modifies k
    ensures Invisible(old(k.m), k.m)
    ensures ok <==> length == 0 || (0 < address <= ADDRESS_MAX - length && Ready(k.m.pt, pid, address, length, write))
    ensures length > 0 && (address == 0 || address > ADDRESS_MAX - length) ==> k.m == old(k.m)
    ensures !ok && 0 < address <= ADDRESS_MAX - length ==> k.starved || Blocked(old(k.m), pid, address, length, write)
  {
    ghost var s := k.m;
    Unchanged(s);
    if length == 0 {
      return true;
    }
    if address == 0 || address > ADDRESS_MAX - length {
      return false;
    }
    var first, last := address / PAGE, (address + length - 1) / PAGE;
    var n := first;
    while n <= last
      invariant first <= n <= last + 1 && Invisible(s, k.m)
      invariant PagesReady(k.m.pt, pid, first, n, write)
    {
      var ready := PrepareNext(k, s, pid, first, n, write);
      if !ready {
        PageUnready(k.m.pt, pid, address, length, write, n);
        return false;
      }
      n := n + 1;
    }
    PagesMakeRange(k.m.pt, pid, address, length, write);
    return true;
  }

  method PrepareNext(k: Kernel, ghost s: State, pid: nat, ghost first: nat, n: nat, write: bool) returns (ok: bool)
    requires Invisible(s, k.m) && pid in k.m.procs && first <= n && PagesReady(k.m.pt, pid, first, n, write)
    modifies k
    ensures Invisible(s, k.m)
    ensures ok ==> PagesReady(k.m.pt, pid, first, n + 1, write)
    ensures ok <==> EntryReady(k.m.pt, Place(pid, n * PAGE), write)
    ensures !ok ==> k.starved || BlockedAt(s, pid, n, write)
  {
    ghost var t := k.m;
    ok := PreparePage(k, pid, n, write);
    if BlockedAt(t, pid, n, write) {
      BlockedBefore(s, t, pid, n, write);
    }
    InvisibleTwice(s, t, k.m);
    PagesStayReady(t.pt, k.m.pt, pid, first, n, write);
  }

  // ---------- Copying out ----------

  /** A byte of a page, as a process sees it. */
  ghost function ByteAt(s: State, q: Place, o: nat): Option<Byte>
    requires o < PAGE
  {
    var v := View(s, q);
    if v.Some? then Some(v.value[o]) else None
  }

  /** Whether a store to a user address lands on byte `o` of place `q`. */
  ghost predicate Hits(slots: Slots, q: Place, o: nat, pid: nat, address: nat) {
    SameBytes(slots, q, PageAt(pid, address)) && o == address % PAGE
  }

  /** What byte `o` of `q` is after the first `n` bytes have been copied: the last one that hits it. */
  ghost function Final(s: State, q: Place, o: nat, pid: nat, to: nat, data: seq<Byte>, n: nat): Option<Byte>
    requires o < PAGE && n <= |data|
  {
    if n == 0 then ByteAt(s, q, o)
    else if Hits(s.slots, q, o, pid, to + n - 1) then Some(data[n - 1])
    else Final(s, q, o, pid, to, data, n - 1)
  }

  /** A chunk within one page, byte by byte. */
  lemma {:induction false} FinalChunk(s: State, q: Place, o: nat, pid: nat, to: nat, data: seq<Byte>, n: nat, w: nat)
    requires o < PAGE && n + w <= |data| && (to + n) % PAGE + w <= PAGE
    ensures Final(s, q, o, pid, to, data, n + w) ==
      if SameBytes(s.slots, q, PageAt(pid, to + n)) && (to + n) % PAGE <= o < (to + n) % PAGE + w
      then Some(data[n + o - (to + n) % PAGE]) else Final(s, q, o, pid, to, data, n)
  {
    if w > 0 {
      FinalChunk(s, q, o, pid, to, data, n, w - 1);
      InSamePage(to + n, w - 1);
      assert to + n + (w - 1) == to + (n + w) - 1;
    }
  }

  /** The memory after copying the first `n` bytes of `data`. */
  ghost predicate CopiedOut(s: State, t: State, pid: nat, to: nat, data: seq<Byte>, n: nat)
    requires n <= |data|
  {
    forall q: Place, o: nat :: o < PAGE ==> ByteAt(t, q, o) == Final(s, q, o, pid, to, data, n)
  }

  lemma CopiedMore(s: State, t: State, u: State, pid: nat, to: nat, data: seq<Byte>, n: nat, w: nat)
    requires n + w <= |data| && (to + n) % PAGE + w <= PAGE && t.slots == s.slots
    requires CopiedOut(s, t, pid, to, data, n) && View(t, PageAt(pid, to + n)).Some?
    requires forall q :: View(u, q) == if SameBytes(s.slots, q, PageAt(pid, to + n))
      then Some(Patch(View(t, PageAt(pid, to + n)).value, (to + n) % PAGE, data[n..n + w])) else View(t, q)
    requires forall q :: SameBytes(s.slots, q, PageAt(pid, to + n)) ==> View(t, q) == View(t, PageAt(pid, to + n))
    ensures CopiedOut(s, u, pid, to, data, n + w)
  {
    var pl := PageAt(pid, to + n);
    forall q: Place, o: nat | o < PAGE
      ensures ByteAt(u, q, o) == Final(s, q, o, pid, to, data, n + w)
    {
      FinalChunk(s, q, o, pid, to, data, n, w);
      assert ByteAt(t, q, o) == Final(s, q, o, pid, to, data, n);
      assert View(u, q) == if SameBytes(s.slots, q, pl)
        then Some(Patch(View(t, pl).value, (to + n) % PAGE, data[n..n + w])) else View(t, q);
    }
  }

  /** Places with the same bytes look the same. */
  lemma SameBytesSameView(s: State, q: Place, pl: Place)
    requires Good(s) && SameBytes(s.slots, q, pl)
    ensures View(s, q) == View(s, pl)
  {
    if q != pl {
      SharedPageView(s, q);
      SharedPageView(s, pl);
    }
  }

  /** How `memcpy` moves on: a word when both sides are aligned and enough is left, else a byte. */
  function Width(to: nat, from: nat, n: nat, total: nat): (w: nat)
    requires n < total
    ensures 0 < w <= total - n && (to + n) % PAGE + w <= PAGE
  {
    if to % 8 == from % 8 && (to + n) % 8 == 0 && total - n >= 8 then
      assert (to + n) % PAGE % 8 == 0; 8
    else 1
  }

  lemma ChunkSeen(s: State, t: State, u: State, pid: nat, to: nat, data: seq<Byte>, n: nat, w: nat)
    requires Good(t) && n + w <= |data| && (to + n) % PAGE + w <= PAGE && t.slots == s.slots
    requires CopiedOut(s, t, pid, to, data, n) && View(t, PageAt(pid, to + n)).Some? && PageAt(pid, to + n) in t.slots
    requires forall q :: View(u, q) == if SameBytes(t.slots, q, PageAt(pid, to + n))
      then Some(Patch(View(t, PageAt(pid, to + n)).value, (to + n) % PAGE, data[n..n + w])) else View(t, q)
    ensures CopiedOut(s, u, pid, to, data, n + w)
  {
    forall q | SameBytes(s.slots, q, PageAt(pid, to + n))
      ensures View(t, q) == View(t, PageAt(pid, to + n))
    {
      SameBytesSameView(t, q, PageAt(pid, to + n));
    }
    CopiedMore(s, t, u, pid, to, data, n, w);
  }

  /** One word or byte. */
  method CopyChunk(k: Kernel, ghost s: State, pid: nat, to: nat, data: seq<Byte>, n: nat, w: nat)
    requires k.Valid() && n + w <= |data| && (to + n) % PAGE + w <= PAGE
    requires EntryReady(k.m.pt, PageAt(pid, to + n), true)
    requires k.m == s.(frames := k.m.frames) && CopiedOut(s, k.m, pid, to, data, n)
    modifies k
    ensures k.Valid() && Step(old(k.m), k.m, pid) && k.m == s.(frames := k.m.frames)
    ensures CopiedOut(s, k.m, pid, to, data, n + w)
  {
    ghost var t := k.m;
    WritableFacts(t, PageAt(pid, to + n));
    StoreUser(k, PageAt(pid, to + n), (to + n) % PAGE, data[n..n + w]);
    ChunkSeen(s, t, k.m, pid, to, data, n, w);
  }

  ghost predicate CopyingOut(s: State, t: State, pid: nat, to: nat, data: seq<Byte>, n: nat)
    requires n <= |data|
  {
    Good(t) && Step(s, t, pid) && t == s.(frames := t.frames) && CopiedOut(s, t, pid, to, data, n)
  }

  lemma CopyingNone(s: State, pid: nat, to: nat, data: seq<Byte>)
    requires Good(s)
    ensures CopyingOut(s, s, pid, to, data, 0)
  {
    Unchanged(s);
    InvisibleSteps(s, s, pid);
  }

  lemma StepsTwice(s: State, t: State, u: State, pid: nat)
    requires Step(s, t, pid) && Step(t, u, pid) && t.backings == s.backings && u.backings == s.backings
    ensures Step(s, u, pid)
  {
    IsolatedTwice(s, t, u, pid);
    GuardedTwice(s, t, u);
  }

  lemma IsolatedTwice(s: State, t: State, u: State, pid: nat)
    requires Isolated(s, t, pid) && Isolated(t, u, pid) && s.procs.Keys - {pid} <= t.procs.Keys
    ensures Isolated(s, u, pid)
  {
    forall pl: Place | pl.pid != pid && pl.pid in s.procs
      ensures PlaceIsolated(s, u, pl)
    {
      assert PlaceIsolated(s, t, pl) && PlaceIsolated(t, u, pl);
    }
  }

  lemma GuardedTwice(s: State, t: State, u: State)
    requires Guarded(s, t) && Guarded(t, u) && t.backings == s.backings && u.backings == s.backings
    ensures Guarded(s, u)
  {
    forall b | b in s.backings && b in u.backings
      ensures SealsRespected(s, u, b)
    {
      assert SealsRespected(s, t, b) && SealsRespected(t, u, b);
    }
  }

  method CopyNext(k: Kernel, ghost s: State, pid: nat, to: nat, data: seq<Byte>, n: nat, w: nat)
    requires n + w <= |data| && CopyingOut(s, k.m, pid, to, data, n)
    requires (to + n) % PAGE + w <= PAGE && EntryReady(k.m.pt, PageAt(pid, to + n), true)
    modifies k
    ensures CopyingOut(s, k.m, pid, to, data, n + w)
  {
    ghost var t := k.m;
    CopyChunk(k, s, pid, to, data, n, w);
    StepsTwice(s, t, k.m, pid);
  }

  /** `memcpy` to user memory that is ready: the stores go in order, so the last one on a byte stays. */
  method CopyOut(k: Kernel, pid: nat, to: nat, from: nat, data: seq<Byte>)
    requires k.Valid() && Ready(k.m.pt, pid, to, |data|, true)
    modifies k
    ensures CopyingOut(old(k.m), k.m, pid, to, data, |data|)
  {
    ghost var s := k.m;
    CopyingNone(s, pid, to, data);
    var n := 0;
    while n < |data|
      invariant n <= |data| && CopyingOut(s, k.m, pid, to, data, n)
    {
      var w := Width(to, from, n, |data|);
      assert EntryReady(s.pt, PageAt(pid, to + n), true);
      CopyNext(k, s, pid, to, data, n, w);
      n := n + w;
    }
  }

  lemma {:induction false} FinalSame(s: State, t: State, q: Place, o: nat, pid: nat, to: nat, data: seq<Byte>, n: nat)
    requires SameViews(s, t) && SameSharing(s.slots, t.slots) && o < PAGE && n <= |data|
    ensures Final(t, q, o, pid, to, data, n) == Final(s, q, o, pid, to, data, n)
  {
    if n == 0 {
      assert View(t, q) == View(s, q);
    } else {
      FinalSame(s, t, q, o, pid, to, data, n - 1);
      var pl := PageAt(pid, to + n - 1);
      assert SharedSource(t.slots, q) == SharedSource(s.slots, q);
      assert SharedSource(t.slots, pl) == SharedSource(s.slots, pl);
    }
  }

  lemma CopiedSincePrepared(s: State, t: State, u: State, pid: nat, to: nat, data: seq<Byte>)
    requires SameViews(s, t) && SameSharing(s.slots, t.slots) && CopiedOut(t, u, pid, to, data, |data|)
    ensures CopiedOut(s, u, pid, to, data, |data|)
  {
    forall q: Place, o: nat | o < PAGE
      ensures ByteAt(u, q, o) == Final(s, q, o, pid, to, data, |data|)
    {
      FinalSame(s, t, q, o, pid, to, data, |data|);
      assert ByteAt(u, q, o) == Final(t, q, o, pid, to, data, |data|);
    }
  }

  /**
   `copy_to_user`: every byte of every process afterwards is the last byte copied onto it,
   or what it was. A refused copy changes nothing that anyone sees, and pages shared by
   copy-on-write are copied before they are written.
   */
  method CopyToUser(k: Kernel, pid: nat, to: nat, from: nat, data: seq<Byte>) returns (ok: bool)
    requires k.Valid() && pid in k.m.procs
    modifies k
    ensures k.Valid() && Step(old(k.m), k.m, pid)
    ensures ok ==> CopiedOut(old(k.m), k.m, pid, to, data, |data|)
    ensures !ok ==> SameViews(old(k.m), k.m)
    ensures ok <==> data == [] || (0 < to <= ADDRESS_MAX - |data| && Ready(k.m.pt, pid, to, |data|, true))
    ensures !ok && 0 < to <= ADDRESS_MAX - |data| ==> k.starved || Blocked(old(k.m), pid, to, |data|, true)
    ensures SameSharing(old(k.m).slots, k.m.slots)
  {
    ghost var s := k.m;
    ok := PrepareRange(k, pid, to, |data|, true);
    ghost var t := k.m;
    InvisibleSteps(s, t, pid);
    if ok {
      CopyOut(k, pid, to, from, data);
      CopiedSincePrepared(s, t, k.m, pid, to, data);
      StepsTwice(s, t, k.m, pid);
    }
  }

  // ---------- What a copy means ----------

  /** Bytes that land on the same byte are equal: always so unless a range maps one shared page twice. */
  ghost predicate Consistent(slots: Slots, pid: nat, to: nat, data: seq<Byte>) {
    forall i: nat, j: nat :: i < |data| && j < |data| && Collides(slots, pid, to + i, to + j) ==> data[i] == data[j]
  }

  /** Two addresses of one process that are the same byte of memory. */
  ghost predicate Collides(slots: Slots, pid: nat, a: nat, b: nat) {
    Hits(slots, PageAt(pid, a), a % PAGE, pid, b)
  }

  /** Two pages next to each other that map the same shared page: bytes that differ cannot both be found. */
  lemma MappedTwice(slots: Slots, slot: Slot, data: seq<Byte>)
    requires slot == Slot(Mapping, Prot(true, true, false), false, Shared(1, 0))
    requires slots == map[Place(1, MMAP_START) := slot, Place(1, MMAP_START + PAGE) := slot]
    requires |data| == 2 * PAGE && data[0] != data[PAGE]
    ensures !Consistent(slots, 1, MMAP_START, data)
  {
    assert Collides(slots, 1, MMAP_START + 0, MMAP_START + PAGE);
  }

  /** The value that the copied byte `i` has in the end is that of some byte that lands on it. */
  lemma {:induction false} FinalIsSome(s: State, pid: nat, to: nat, data: seq<Byte>, i: nat, n: nat) returns (j: nat)
    requires i < n <= |data|
    ensures j < n && Collides(s.slots, pid, to + i, to + j)
    ensures Final(s, PageAt(pid, to + i), (to + i) % PAGE, pid, to, data, n) == Some(data[j])
  {
    if Hits(s.slots, PageAt(pid, to + i), (to + i) % PAGE, pid, to + n - 1) {
      j := n - 1;
      assert to + n - 1 == to + j;
    } else {
      assert i != n - 1;
      j := FinalIsSome(s, pid, to, data, i, n - 1);
    }
  }

  /** Bytes that are the same memory end up equal. */
  lemma {:induction false} FinalAgrees(s: State, q: Place, r: Place, o: nat, pid: nat, to: nat, data: seq<Byte>, n: nat)
    requires Good(s) && o < PAGE && n <= |data| && SameBytes(s.slots, q, r)
    ensures Final(s, q, o, pid, to, data, n) == Final(s, r, o, pid, to, data, n)
  {
    if n == 0 {
      SameBytesSameView(s, q, r);
    } else {
      FinalAgrees(s, q, r, o, pid, to, data, n - 1);
    }
  }

  /** What was copied to user memory is found there, byte for byte, if and only if the copy was consistent. */
  lemma CopyReadsBack(s: State, t: State, pid: nat, to: nat, data: seq<Byte>)
    requires Good(s) && CopiedOut(s, t, pid, to, data, |data|)
    ensures (forall i: nat :: i < |data| ==> ByteAt(t, PageAt(pid, to + i), (to + i) % PAGE) == Some(data[i]))
      <==> Consistent(s.slots, pid, to, data)
  {
    forall i: nat | i < |data|
      ensures Consistent(s.slots, pid, to, data) ==> ByteAt(t, PageAt(pid, to + i), (to + i) % PAGE) == Some(data[i])
    {
      var j := FinalIsSome(s, pid, to, data, i, |data|);
    }
    if forall i: nat :: i < |data| ==> ByteAt(t, PageAt(pid, to + i), (to + i) % PAGE) == Some(data[i]) {
      forall i: nat, j: nat | i < |data| && j < |data| && Collides(s.slots, pid, to + i, to + j)
        ensures data[i] == data[j]
      {
        FinalAgrees(s, PageAt(pid, to + i), PageAt(pid, to + j), (to + j) % PAGE, pid, to, data, |data|);
        assert ByteAt(t, PageAt(pid, to + i), (to + i) % PAGE) == Some(data[i]);
        assert ByteAt(t, PageAt(pid, to + j), (to + j) % PAGE) == Some(data[j]);
      }
    }
  }

  /** A range without two mappings of one shared page is always consistent. */
  lemma UnsharedIsConsistent(slots: Slots, pid: nat, to: nat, data: seq<Byte>)
    requires forall a: nat :: to <= a < to + |data| ==> !IsShared(slots, PageAt(pid, a))
    ensures Consistent(slots, pid, to, data)
  {
    forall i: nat, j: nat | i < |data| && j < |data| && Collides(slots, pid, to + i, to + j)
      ensures data[i] == data[j]
    {
      assert !IsShared(slots, PageAt(pid, to + i));
      SameAddress(to + i, to + j);
    }
  }

  lemma SameAddress(a: nat, b: nat)
    requires a / PAGE * PAGE == b / PAGE * PAGE && a % PAGE == b % PAGE
    ensures a == b
  {
  }

  // ---------- Copying in ----------

  lemma MappedView(s: State, pl: Place)
    requires Good(s) && pl in s.pt
    ensures s.pt[pl].frame in s.frames && View(s, pl) == Some(s.frames[s.pt[pl].frame])
  {
    assert PteOk(pl, s.pt[pl], s.tables, s.slots, s.resident);
    FrameKnown(s, SlotCell(pl));
  }

  /** `data` is what the process sees from `from` on. */
  ghost predicate CopiedIn(s: State, pid: nat, from: nat, data: seq<Byte>) {
    forall a: nat :: from <= a < from + |data| ==> ByteAt(s, PageAt(pid, a), a % PAGE) == Some(data[a - from])
  }

  /** Every entry maps a frame that exists. */
  ghost predicate FramesPresent(s: State) {
    forall pl :: pl in s.pt ==> s.pt[pl].frame in s.frames
  }

  /** `data` is what the page table leads to from `from` on. */
  ghost predicate ThroughTable(s: State, pid: nat, from: nat, data: seq<Byte>)
    requires FramesPresent(s)
  {
    forall a: nat :: from <= a < from + |data| ==>
      PageAt(pid, a) in s.pt && data[a - from] == s.frames[s.pt[PageAt(pid, a)].frame][a % PAGE]
  }

  lemma PartThroughTable(s: State, pid: nat, from: nat, chunk: seq<Byte>)
    requires FramesPresent(s) && PageAt(pid, from) in s.pt && from % PAGE + |chunk| <= PAGE
    requires chunk == Part(s.frames[s.pt[PageAt(pid, from)].frame], from % PAGE, |chunk|)
    ensures ThroughTable(s, pid, from, chunk)
  {
    forall a: nat | from <= a < from + |chunk|
      ensures PageAt(pid, a) in s.pt && chunk[a - from] == s.frames[s.pt[PageAt(pid, a)].frame][a % PAGE]
    {
      InSamePage(from, a - from);
    }
  }

  lemma TableMore(s: State, pid: nat, from: nat, data: seq<Byte>, chunk: seq<Byte>)
    requires FramesPresent(s) && ThroughTable(s, pid, from, data) && ThroughTable(s, pid, from + |data|, chunk)
    ensures ThroughTable(s, pid, from, data + chunk)
  {
  }

  /** `memcpy` from user memory that is ready: words or bytes, through the page table. */
  method CopyIn(k: Kernel, pid: nat, from: nat, to: nat, length: nat) returns (data: seq<Byte>)
    requires FramesPresent(k.m) && Ready(k.m.pt, pid, from, length, false)
    ensures |data| == length && ThroughTable(k.m, pid, from, data)
  {
    data := [];
    while |data| < length
      invariant |data| <= length && ThroughTable(k.m, pid, from, data)
    {
      var at := from + |data|;
      var w := Width(from, to, |data|, length);
      assert EntryReady(k.m.pt, PageAt(pid, at), false);
      var chunk := Part(k.m.frames[k.m.pt[PageAt(pid, at)].frame], at % PAGE, w);
      PartThroughTable(k.m, pid, at, chunk);
      TableMore(k.m, pid, from, data, chunk);
      data := data + chunk;
    }
  }

  lemma TableIsView(s: State, pid: nat, from: nat, data: seq<Byte>)
    requires Good(s) && FramesPresent(s) && ThroughTable(s, pid, from, data)
    ensures CopiedIn(s, pid, from, data)
  {
    forall a: nat | from <= a < from + |data|
      ensures ByteAt(s, PageAt(pid, a), a % PAGE) == Some(data[a - from])
    {
      MappedView(s, PageAt(pid, a));
    }
  }

  lemma FramesArePresent(s: State)
    requires Good(s)
    ensures FramesPresent(s)
  {
    forall pl | pl in s.pt
      ensures s.pt[pl].frame in s.frames
    {
      MappedView(s, pl);
    }
  }

  lemma CopiedInBefore(s: State, t: State, pid: nat, from: nat, data: seq<Byte>)
    requires SameViews(s, t) && CopiedIn(t, pid, from, data)
    ensures CopiedIn(s, pid, from, data)
  {
    forall a: nat | from <= a < from + |data|
      ensures ByteAt(s, PageAt(pid, a), a % PAGE) == Some(data[a - from])
    {
      assert View(t, PageAt(pid, a)) == View(s, PageAt(pid, a));
      assert ByteAt(t, PageAt(pid, a), a % PAGE) == Some(data[a - from]);
    }
  }

  /** `copy_from_user`: the bytes the process saw before the call, which changes nothing it sees. */
  method CopyFromUser(k: Kernel, pid: nat, from: nat, to: nat, length: nat) returns (ok: bool, data: seq<Byte>)
    requires k.Valid() && pid in k.m.procs
    modifies k
    ensures Invisible(old(k.m), k.m) && Step(old(k.m), k.m, pid)
    ensures ok ==> |data| == length && CopiedIn(old(k.m), pid, from, data)
    ensures ok <==> length == 0 || (0 < from <= ADDRESS_MAX - length && Ready(k.m.pt, pid, from, length, false))
    ensures !ok && 0 < from <= ADDRESS_MAX - length ==> k.starved || Blocked(old(k.m), pid, from, length, false)
  {
    ghost var s := k.m;
    data := [];
    ok := PrepareRange(k, pid, from, length, false);
    InvisibleSteps(s, k.m, pid);
    if ok {
      FramesArePresent(k.m);
      data := CopyIn(k, pid, from, to, length);
      TableIsView(k.m, pid, from, data);
      CopiedInBefore(s, k.m, pid, from, data);
    }
  }
}

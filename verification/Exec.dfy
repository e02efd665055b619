/**
 Replacing the program of a process: the new image is loaded into a staged process, the old
 pages are released, and everything the staged process has is moved over
 (xscore/kernel/process.c).
 */
module Execs {
  import opened Bytes
  import opened Ledger
  import opened Machine
  import opened Steps
  import opened Moves
  import opened Changes
  import opened Faults
  import opened Teardown
  import opened Forking
  import opened Runs
  import opened Kernels
  import opened Loading
  import Elf

  // ---------- Two processes exchange their memory ----------

  function SwapPid(p: nat, a: nat, b: nat): nat {
    if p == a then b else if p == b then a else p
  }

  function SwapPlace(pl: Place, a: nat, b: nat): Place {
    Place(SwapPid(pl.pid, a, b), pl.page)
  }

  function SwapCell(c: Cell, a: nat, b: nat): Cell {
    if c.SlotCell? then SlotCell(SwapPlace(c.place, a, b)) else c
  }

  function SwapRef(r: Attachment, a: nat, b: nat): Attachment {
    if r.SlotRef? then SlotRef(SwapPlace(r.place, a, b)) else r
  }

  function Swapped(s: State, a: nat, b: nat): State {
    s.(resident := Renamed(s.resident, (c: Cell) => SwapCell(c, a, b)),
       slots := Renamed(s.slots, (pl: Place) => SwapPlace(pl, a, b)),
       pt := Renamed(s.pt, (pl: Place) => SwapPlace(pl, a, b)),
       tables := set pl | pl in s.tables :: SwapPlace(pl, a, b),
       attached := Renamed(s.attached, (r: Attachment) => SwapRef(r, a, b)),
       procs := Renamed(s.procs, (p: nat) => SwapPid(p, a, b)))
  }

  /** Under swapped names the same key has the same value. */
  ghost predicate Carries<K, V>(m: map<K, V>, m': map<K, V>, k: K, k': K) {
    (k' in m' <==> k in m) && (k' in m' ==> m'[k'] == m[k])
  }

  ghost predicate PlacesSwap<V>(m: map<Place, V>, m': map<Place, V>, a: nat, b: nat) {
    forall q {:trigger Carries(m, m', SwapPlace(q, a, b), q)} :: Carries(m, m', SwapPlace(q, a, b), q)
  }

  ghost predicate CellsSwap(m: Residents, m': Residents, a: nat, b: nat) {
    forall c {:trigger Carries(m, m', SwapCell(c, a, b), c)} :: Carries(m, m', SwapCell(c, a, b), c)
  }

  ghost predicate TablesSwap(tables: set<Place>, tables': set<Place>, a: nat, b: nat) {
    forall q {:trigger SwapPlace(q, a, b)} :: SwapPlace(q, a, b) in tables ==> q in tables'
  }

  ghost predicate RefsSwap(m: map<Attachment, nat>, m': map<Attachment, nat>, a: nat, b: nat) {
    forall r {:trigger Carries(m, m', SwapRef(r, a, b), r)} :: Carries(m, m', SwapRef(r, a, b), r)
  }

  ghost predicate PidsSwap(m: map<nat, Process>, m': map<nat, Process>, a: nat, b: nat) {
    forall p {:trigger Carries(m, m', SwapPid(p, a, b), p)} :: Carries(m, m', SwapPid(p, a, b), p)
  }

  ghost predicate Swaps(s: State, t: State, a: nat, b: nat) {
    && t == s.(resident := t.resident, slots := t.slots, pt := t.pt, tables := t.tables, attached := t.attached,
      procs := t.procs)
    && PlacesSwap(s.slots, t.slots, a, b) && CellsSwap(s.resident, t.resident, a, b)
    && PlacesSwap(s.pt, t.pt, a, b) && TablesSwap(s.tables, t.tables, a, b)
    && RefsSwap(s.attached, t.attached, a, b) && PidsSwap(s.procs, t.procs, a, b)
  }

  lemma SwappedSwaps(s: State, a: nat, b: nat)
    ensures Swaps(s, Swapped(s, a, b), a, b)
  {
    PlacesRenamed(s.slots, a, b);
    PlacesRenamed(s.pt, a, b);
    CellsRenamed(s.resident, a, b);
    RefsRenamed(s.attached, a, b);
    PidsRenamed(s.procs, a, b);
    TablesRenamed(s.tables, a, b);
  }

  lemma RenamedCarries<K(!new), V>(m: map<K, V>, f: K -> K, k: K)
    requires Involution(f)
    ensures Carries(m, Renamed(m, f), f(k), k)
  {
  }

  lemma PlacesRenamed<V>(m: map<Place, V>, a: nat, b: nat)
    ensures PlacesSwap(m, Renamed(m, (pl: Place) => SwapPlace(pl, a, b)), a, b)
  {
    forall q
      ensures Carries(m, Renamed(m, (pl: Place) => SwapPlace(pl, a, b)), SwapPlace(q, a, b), q)
    {
      RenamedCarries(m, (pl: Place) => SwapPlace(pl, a, b), q);
    }
  }

  lemma CellsRenamed(m: Residents, a: nat, b: nat)
    ensures CellsSwap(m, Renamed(m, (c: Cell) => SwapCell(c, a, b)), a, b)
  {
    forall c
      ensures Carries(m, Renamed(m, (c: Cell) => SwapCell(c, a, b)), SwapCell(c, a, b), c)
    {
      RenamedCarries(m, (c: Cell) => SwapCell(c, a, b), c);
    }
  }

  lemma RefsRenamed(m: map<Attachment, nat>, a: nat, b: nat)
    ensures RefsSwap(m, Renamed(m, (r: Attachment) => SwapRef(r, a, b)), a, b)
  {
    forall r
      ensures Carries(m, Renamed(m, (r: Attachment) => SwapRef(r, a, b)), SwapRef(r, a, b), r)
    {
      RenamedCarries(m, (r: Attachment) => SwapRef(r, a, b), r);
    }
  }

  lemma PidsRenamed(m: map<nat, Process>, a: nat, b: nat)
    ensures PidsSwap(m, Renamed(m, (p: nat) => SwapPid(p, a, b)), a, b)
  {
    forall p
      ensures Carries(m, Renamed(m, (p: nat) => SwapPid(p, a, b)), SwapPid(p, a, b), p)
    {
      RenamedCarries(m, (p: nat) => SwapPid(p, a, b), p);
    }
  }

  lemma TablesRenamed(tables: set<Place>, a: nat, b: nat)
    ensures TablesSwap(tables, set pl | pl in tables :: SwapPlace(pl, a, b), a, b)
  {
    forall q | SwapPlace(q, a, b) in tables
      ensures q in set pl | pl in tables :: SwapPlace(pl, a, b)
    {
      assert SwapPlace(SwapPlace(q, a, b), a, b) == q;
    }
  }

  // ---------- The invariant does not depend on names ----------

  lemma SwapFrames(s: State, t: State, a: nat, b: nat)
    requires Balanced(s.resident, s.refs) && CellsSwap(s.resident, t.resident, a, b)
    ensures Balanced(t.resident, s.refs)
  {
    var f := (c: Cell) => SwapCell(c, a, b);
    forall c
      ensures c in t.resident <==> f(c) in s.resident
      ensures c in t.resident ==> t.resident[c] == s.resident[f(c)]
    {
      assert Carries(s.resident, t.resident, SwapCell(c, a, b), c);
    }
    RenamedBalanced(s.resident, t.resident, s.refs, f);
  }

  lemma SwapBackings(s: State, t: State, a: nat, b: nat)
    requires Balanced(s.attached, s.shares) && RefsSwap(s.attached, t.attached, a, b)
    ensures Balanced(t.attached, s.shares)
  {
    var f := (r: Attachment) => SwapRef(r, a, b);
    forall r
      ensures r in t.attached <==> f(r) in s.attached
      ensures r in t.attached ==> t.attached[r] == s.attached[f(r)]
    {
      assert Carries(s.attached, t.attached, SwapRef(r, a, b), r);
    }
    RenamedBalanced(s.attached, t.attached, s.shares, f);
  }

  lemma SwapAttached(s: State, t: State, a: nat, b: nat)
    requires AttachedAgree(s.attached, s.slots) && RefsSwap(s.attached, t.attached, a, b)
    requires PlacesSwap(s.slots, t.slots, a, b)
    ensures AttachedAgree(t.attached, t.slots)
  {
    forall pl
      ensures SlotRef(pl) in t.attached <==> pl in t.slots && !t.slots[pl].source.Anonymous?
      ensures pl in t.slots && !t.slots[pl].source.Anonymous? ==> t.attached[SlotRef(pl)] == t.slots[pl].source.backing
    {
      assert Carries(s.attached, t.attached, SwapRef(SlotRef(pl), a, b), SlotRef(pl));
      assert Carries(s.slots, t.slots, SwapPlace(pl, a, b), pl);
    }
  }

  lemma SwapSlots(s: State, t: State, a: nat, b: nat)
    requires SlotsOk(s.slots, s.backings, s.procs) && PlacesSwap(s.slots, t.slots, a, b)
    requires PidsSwap(s.procs, t.procs, a, b)
    ensures SlotsOk(t.slots, s.backings, t.procs)
  {
    forall pl | pl in t.slots
      ensures SlotOk(pl, t.slots[pl], s.backings, t.procs)
    {
      assert Carries(s.slots, t.slots, SwapPlace(pl, a, b), pl);
      assert Carries(s.procs, t.procs, SwapPid(pl.pid, a, b), pl.pid);
      assert SlotOk(SwapPlace(pl, a, b), s.slots[SwapPlace(pl, a, b)], s.backings, s.procs);
    }
  }

  lemma SwapCells(s: State, t: State, a: nat, b: nat)
    requires CellsOk(s.resident, s.slots, s.backings) && PlacesSwap(s.slots, t.slots, a, b)
    requires CellsSwap(s.resident, t.resident, a, b)
    ensures CellsOk(t.resident, t.slots, s.backings)
  {
    forall c | c in t.resident
      ensures CellOk(c, t.slots, s.backings)
    {
      assert Carries(s.resident, t.resident, SwapCell(c, a, b), c);
      assert CellOk(SwapCell(c, a, b), s.slots, s.backings);
      assert c.SlotCell? ==> Carries(s.slots, t.slots, SwapPlace(c.place, a, b), c.place);
    }
  }

  lemma SwapKey(s: State, t: State, a: nat, b: nat, c: Cell)
    requires PlacesSwap(s.slots, t.slots, a, b)
    ensures Key(t.slots, c) == Key(s.slots, SwapCell(c, a, b)) && Owns(t.slots, c) == Owns(s.slots, SwapCell(c, a, b))
  {
    assert c.SlotCell? ==> Carries(s.slots, t.slots, SwapPlace(c.place, a, b), c.place);
  }

  lemma SwapSeparated(s: State, t: State, a: nat, b: nat)
    requires Separated(s.resident, s.slots) && PlacesSwap(s.slots, t.slots, a, b)
    requires CellsSwap(s.resident, t.resident, a, b)
    ensures Separated(t.resident, t.slots)
  {
    forall c, d | c in t.resident && d in t.resident && c != d && t.resident[c] == t.resident[d]
      ensures Key(t.slots, c) == Key(t.slots, d) && !Owns(t.slots, c)
    {
      SwapKey(s, t, a, b, c);
      SwapKey(s, t, a, b, d);
      SwapCellApart(c, d, a, b);
      assert Carries(s.resident, t.resident, SwapCell(c, a, b), c);
      assert Carries(s.resident, t.resident, SwapCell(d, a, b), d);
    }
  }

  lemma SwapCellApart(c: Cell, d: Cell, a: nat, b: nat)
    requires c != d
    ensures SwapCell(c, a, b) != SwapCell(d, a, b)
  {
  }

  lemma SwapShared(s: State, t: State, a: nat, b: nat)
    requires SharedAgree(s.resident, s.slots) && PlacesSwap(s.slots, t.slots, a, b)
    requires CellsSwap(s.resident, t.resident, a, b)
    ensures SharedAgree(t.resident, t.slots)
  {
    forall pl | SlotCell(pl) in t.resident && pl in t.slots && t.slots[pl].source.Shared?
      ensures var c := BackingCell(t.slots[pl].source.backing, t.slots[pl].source.index);
        c in t.resident && t.resident[c] == t.resident[SlotCell(pl)]
    {
      var c := BackingCell(t.slots[pl].source.backing, t.slots[pl].source.index);
      assert Carries(s.resident, t.resident, SwapCell(c, a, b), c);
      assert Carries(s.resident, t.resident, SwapCell(SlotCell(pl), a, b), SlotCell(pl));
      assert Carries(s.slots, t.slots, SwapPlace(pl, a, b), pl);
    }
  }

  lemma SwapPtes(s: State, t: State, a: nat, b: nat)
    requires PtesSound(s.pt, s.tables, s.slots, s.resident)
    requires PlacesSwap(s.slots, t.slots, a, b) && CellsSwap(s.resident, t.resident, a, b)
    requires PlacesSwap(s.pt, t.pt, a, b) && TablesSwap(s.tables, t.tables, a, b)
    ensures PtesSound(t.pt, t.tables, t.slots, t.resident)
  {
    forall pl | pl in t.pt
      ensures PteOk(pl, t.pt[pl], t.tables, t.slots, t.resident)
    {
      var q := SwapPlace(pl, a, b);
      assert Carries(s.pt, t.pt, q, pl) && Carries(s.slots, t.slots, q, pl);
      assert Carries(s.resident, t.resident, SwapCell(SlotCell(pl), a, b), SlotCell(pl));
      assert PteOk(q, s.pt[q], s.tables, s.slots, s.resident);
      assert TableOf(q) == SwapPlace(TableOf(pl), a, b);
    }
  }

  lemma SwapComplete(s: State, t: State, a: nat, b: nat)
    requires PtesComplete(s.pt, s.slots, s.resident) && CowsOk(s.slots, s.resident)
    requires PlacesSwap(s.slots, t.slots, a, b) && CellsSwap(s.resident, t.resident, a, b)
    requires PlacesSwap(s.pt, t.pt, a, b)
    ensures PtesComplete(t.pt, t.slots, t.resident) && CowsOk(t.slots, t.resident)
  {
    forall pl | pl in t.slots
      ensures SlotCell(pl) in t.resident && t.slots[pl].prot != PROT_NONE ==> pl in t.pt
      ensures t.slots[pl].cow ==> SlotCell(pl) in t.resident && !t.slots[pl].source.Shared?
      ensures t.slots[pl].cow ==> (!t.slots[pl].region.Mapping? ==> t.slots[pl].prot.write)
    {
      assert Carries(s.slots, t.slots, SwapPlace(pl, a, b), pl) && Carries(s.pt, t.pt, SwapPlace(pl, a, b), pl);
      assert Carries(s.resident, t.resident, SwapCell(SlotCell(pl), a, b), SlotCell(pl));
    }
  }

  lemma SwapHeld(s: State, t: State, a: nat, b: nat, c: Cell)
    requires t.frames == s.frames && CellsSwap(s.resident, t.resident, a, b)
    ensures Held(t.frames, t.resident, c) == Held(s.frames, s.resident, SwapCell(c, a, b))
  {
    assert Carries(s.resident, t.resident, SwapCell(c, a, b), c);
  }

  lemma SwapCache(s: State, t: State, a: nat, b: nat)
    requires CacheSound(s.frames, s.resident) && t.frames == s.frames && CellsSwap(s.resident, t.resident, a, b)
    ensures CacheSound(t.frames, t.resident)
  {
    forall c | c in t.resident && c.CacheCell?
      ensures CacheOk(c.image, c.off, Held(t.frames, t.resident, c))
    {
      SwapHeld(s, t, a, b, c);
      assert Carries(s.resident, t.resident, SwapCell(c, a, b), c);
      assert CacheOk(c.image, c.off, Held(s.frames, s.resident, c));
    }
  }

  lemma SwapRest(s: State, t: State, a: nat, b: nat)
    requires SealsHold(s.slots, s.backings) && ProcsOk(s.procs) && PlacesSwap(s.slots, t.slots, a, b)
    requires PidsSwap(s.procs, t.procs, a, b)
    ensures SealsHold(t.slots, s.backings) && ProcsOk(t.procs)
  {
    forall pl | pl in t.slots
      ensures SwapPlace(pl, a, b) in s.slots && t.slots[pl] == s.slots[SwapPlace(pl, a, b)]
    {
      assert Carries(s.slots, t.slots, SwapPlace(pl, a, b), pl);
    }
    forall p | p in t.procs
      ensures ProcOk(t.procs[p])
    {
      assert Carries(s.procs, t.procs, SwapPid(p, a, b), p);
    }
  }

  lemma SwapGood(s: State, t: State, a: nat, b: nat)
    requires Good(s) && Swaps(s, t, a, b)
    ensures Good(t)
  {
    SwapFrames(s, t, a, b);
    SwapBackings(s, t, a, b);
    SwapAttached(s, t, a, b);
    SwapSlots(s, t, a, b);
    SwapCells(s, t, a, b);
    SwapSeparated(s, t, a, b);
    SwapShared(s, t, a, b);
    SwapPtes(s, t, a, b);
    SwapComplete(s, t, a, b);
    SwapCache(s, t, a, b);
    SwapRest(s, t, a, b);
  }

  lemma SwapBackingPages(s: State, t: State, a: nat, b: nat)
    requires t.frames == s.frames && t.backings == s.backings && CellsSwap(s.resident, t.resident, a, b)
    ensures SameShared(s, t)
  {
    forall c: Cell | c.BackingCell?
      ensures Held(t.frames, t.resident, c) == Held(s.frames, s.resident, c)
    {
      SwapHeld(s, t, a, b, c);
    }
    SharedByHeld(s, t);
  }

  /** What one saw, the other sees. */
  lemma SwapViews(s: State, t: State, a: nat, b: nat, q: Place)
    requires Swaps(s, t, a, b)
    ensures View(t, q) == View(s, SwapPlace(q, a, b))
  {
    SwapBackingPages(s, t, a, b);
    SwapHeld(s, t, a, b, SlotCell(q));
    assert Carries(s.slots, t.slots, SwapPlace(q, a, b), q);
    assert Carries(s.procs, t.procs, SwapPid(q.pid, a, b), q.pid);
    SameView(s, t, q, SwapPlace(q, a, b));
  }

  lemma SameView(s: State, t: State, q: Place, r: Place)
    requires q.page == r.page && (q in t.slots <==> r in s.slots) && (q in t.slots ==> t.slots[q] == s.slots[r])
    requires (q.pid in t.procs <==> r.pid in s.procs) && (q.pid in t.procs ==> t.procs[q.pid] == s.procs[r.pid])
    requires Held(t.frames, t.resident, SlotCell(q)) == Held(s.frames, s.resident, SlotCell(r)) && SameShared(s, t)
    ensures View(t, q) == View(s, r)
  {
    if q in t.slots {
      assert SourcePage(t, t.slots[q].source) == SourcePage(s, s.slots[r].source);
    }
  }

  // ---------- Moving the staged image over ----------

  /** One process has taken over what another had; everybody else keeps everything. */
  ghost predicate Adopted(s: State, t: State, pid: nat, staged: nat) {
    && (forall page: nat :: TakenOver(s, t, Place(staged, page), Place(pid, page)))
    && (forall q: Place :: q.pid != pid && q.pid != staged ==> TakenOver(s, t, q, q))
    && (forall q: Place :: q.pid == staged ==> q !in t.slots)
  }

  ghost predicate TakenOver(s: State, t: State, from: Place, to: Place) {
    Carries(s.slots, t.slots, from, to) && View(t, to) == View(s, from)
  }

  lemma SwapAdopts(s: State, t: State, u: State, pid: nat, staged: nat)
    requires Good(s) && Swaps(s, t, pid, staged) && pid != staged && staged in s.procs && pid in s.procs
    requires forall q :: q in s.slots ==> q.pid != pid
    requires u == t.(procs := t.procs - {staged})
    ensures Good(u) && SameShared(s, u) && Adopted(s, u, pid, staged)
    ensures u.procs == s.procs[pid := s.procs[staged]] - {staged}
  {
    SwapGood(s, t, pid, staged);
    forall q: Place | q.pid == staged
      ensures q !in t.slots
    {
      assert Carries(s.slots, t.slots, SwapPlace(q, pid, staged), q);
    }
    RemoveProcessStep(t, staged);
    SwapBackingPages(s, t, pid, staged);
    SharedUntouched(t, u);
    SameSharedTwice(s, t, u);
    forall q: Place | q.pid != staged
      ensures TakenOver(s, u, SwapPlace(q, pid, staged), q)
    {
      assert Carries(s.slots, t.slots, SwapPlace(q, pid, staged), q);
      SwapViews(s, t, pid, staged, q);
      assert View(u, q) == View(t, q);
    }
    AdoptedAll(s, u, pid, staged);
    ProcsMoved(s.procs, t.procs, pid, staged);
  }

  lemma AdoptedAll(s: State, u: State, pid: nat, staged: nat)
    requires pid != staged && forall q: Place :: q.pid == staged ==> q !in u.slots
    requires forall q: Place {:trigger SwapPlace(q, pid, staged)} :: q.pid != staged ==>
      TakenOver(s, u, SwapPlace(q, pid, staged), q)
    ensures Adopted(s, u, pid, staged)
  {
    forall page: nat
      ensures TakenOver(s, u, Place(staged, page), Place(pid, page))
    {
      assert SwapPlace(Place(pid, page), pid, staged) == Place(staged, page);
    }
    forall q: Place | q.pid != pid && q.pid != staged
      ensures TakenOver(s, u, q, q)
    {
      assert SwapPlace(q, pid, staged) == q;
    }
  }

  lemma ProcsMoved(procs: map<nat, Process>, procs': map<nat, Process>, pid: nat, staged: nat)
    requires PidsSwap(procs, procs', pid, staged) && pid in procs && staged in procs && pid != staged
    ensures procs' - {staged} == procs[pid := procs[staged]] - {staged}
  {
    forall p
      ensures p != staged ==> (p in procs' <==> p in procs)
      ensures p != staged && p in procs ==> procs'[p] == procs[pid := procs[staged]][p]
    {
      assert Carries(procs, procs', SwapPid(p, pid, staged), p);
    }
  }

  /** `process_adopt_staged_image`, for a process whose own pages are gone. */
  method Adopt(k: Kernel, pid: nat, staged: nat)
    requires k.Valid() && pid in k.m.procs && staged in k.m.procs && pid != staged
    requires forall q :: q in k.m.slots ==> q.pid != pid
    modifies k`m
    ensures k.Valid() && SameShared(old(k.m), k.m) && Adopted(old(k.m), k.m, pid, staged)
    ensures k.m.procs == old(k.m).procs[pid := old(k.m).procs[staged]] - {staged}
  {
    ghost var s := k.m;
    k.m := Swapped(k.m, pid, staged);
    SwappedSwaps(s, pid, staged);
    ghost var t := k.m;
    k.m := k.m.(procs := k.m.procs - {staged});
    SwapAdopts(s, t, k.m, pid, staged);
  }

  // ---------- Exec ----------

  /** The pages of the program that now runs, and everybody else as before. */
  ghost predicate Replaced(s: State, t: State, pid: nat, im: Elf.Image, base: nat, stack: Page, trampoline: Page) {
    && t.procs == s.procs[pid := Process(Program(im, base), STACK_PAGE, HEAP_START)]
    && (forall page: nat :: PageLoaded(t, pid, im, base, stack, trampoline, page))
    && (forall q: Place :: q.pid != pid ==> View(t, q) == View(s, q))
    && (forall q: Place :: q.pid != pid ==> SharedSource(t.slots, q) == SharedSource(s.slots, q))
  }

  lemma PageMovesOver(s: State, t: State, pid: nat, staged: nat, im: Elf.Image, base: nat, stack: Page,
      trampoline: Page, page: nat)
    requires PageLoaded(s, staged, im, base, stack, trampoline, page)
    requires TakenOver(s, t, Place(staged, page), Place(pid, page))
    ensures PageLoaded(t, pid, im, base, stack, trampoline, page)
  {
  }

  /** Released pages of the process itself leave the staged image alone. */
  lemma StagedStays(s: State, t: State, pid: nat, staged: nat, im: Elf.Image, base: nat, stack: Page, trampoline: Page,
      page: nat)
    requires PageLoaded(s, staged, im, base, stack, trampoline, page) && pid != staged
    requires t.slots == s.slots - SlotsOf(s, pid) && View(t, Place(staged, page)) == View(s, Place(staged, page))
    ensures PageLoaded(t, staged, im, base, stack, trampoline, page)
  {
  }

  lemma ReplacedPages(u: State, v: State, t: State, pid: nat, staged: nat, im: Elf.Image, base: nat, stack: Page,
      trampoline: Page)
    requires forall page: nat :: PageLoaded(u, staged, im, base, stack, trampoline, page)
    requires pid != staged && v.slots == u.slots - SlotsOf(u, pid)
    requires forall q: Place :: q.pid != pid ==> View(v, q) == View(u, q)
    requires Adopted(v, t, pid, staged)
    ensures forall page: nat :: PageLoaded(t, pid, im, base, stack, trampoline, page)
  {
    forall page: nat
      ensures PageLoaded(t, pid, im, base, stack, trampoline, page)
    {
      assert View(v, Place(staged, page)) == View(u, Place(staged, page));
      StagedStays(u, v, pid, staged, im, base, stack, trampoline, page);
      assert TakenOver(v, t, Place(staged, page), Place(pid, page));
      PageMovesOver(v, t, pid, staged, im, base, stack, trampoline, page);
    }
  }

  lemma ReplacedOthers(s: State, u: State, v: State, t: State, pid: nat, staged: nat)
    requires HalfForked(s, u, staged) && (forall q :: q in s.slots ==> q.pid != staged) && staged !in s.procs
    requires staged !in t.procs
    requires v.slots == u.slots - SlotsOf(u, pid) && (forall q: Place :: q.pid != pid ==> View(v, q) == View(u, q))
    requires Adopted(v, t, pid, staged)
    ensures forall q: Place :: q.pid != pid ==> View(t, q) == View(s, q)
    ensures forall q: Place :: q.pid != pid ==> SharedSource(t.slots, q) == SharedSource(s.slots, q)
  {
    forall q: Place | q.pid != pid
      ensures View(t, q) == View(s, q) && SharedSource(t.slots, q) == SharedSource(s.slots, q)
    {
      if q.pid == staged {
        assert q !in t.slots && q !in s.slots;
      } else {
        assert TakenOver(v, t, q, q) && View(v, q) == View(u, q) && View(u, q) == View(s, q);
      }
    }
  }

  lemma ReplacedSteps(s: State, t: State, pid: nat)
    requires Good(t) && FewerShared(s, t) && t.procs.Keys == s.procs.Keys
    requires forall q: Place :: q.pid != pid ==> View(t, q) == View(s, q)
    requires forall q: Place :: q.pid != pid ==> SharedSource(t.slots, q) == SharedSource(s.slots, q)
    ensures Step(s, t, pid)
  {
    FewerGuards(s, t);
    forall q: Place | q.pid != pid && q.pid in s.procs
      ensures PlaceIsolated(s, t, q)
    {
      assert View(t, q) == View(s, q) && SharedSource(t.slots, q) == SharedSource(s.slots, q);
    }
  }

  /** The commit: the old pages go and the staged image takes their place. */
  method Commit(k: Kernel, ghost s: State, pid: nat, staged: nat, ghost im: Elf.Image, ghost base: nat,
      ghost stack: Page, ghost trampoline: Page)
    requires Good(s) && pid in s.procs && staged !in s.procs && Loaded(s, k.m, staged, im, base, stack, trampoline)
    modifies k`m
    ensures k.Valid() && FewerShared(s, k.m) && Replaced(s, k.m, pid, im, base, stack, trampoline)
  {
    ghost var u := k.m;
    k.ReleaseProcessPages(pid);
    ghost var v := k.m;
    Adopt(k, pid, staged);
    NoSlots(s, staged);
    ReplacedPages(u, v, k.m, pid, staged, im, base, stack, trampoline);
    ReplacedOthers(s, u, v, k.m, pid, staged);
    CommitShares(s, u, v, k.m);
    CommitProcs(s.procs, u.procs, v.procs, pid, staged);
  }

  lemma CommitShares(s: State, u: State, v: State, t: State)
    requires SameShared(s, u) && FewerShared(u, v) && SameShared(v, t)
    ensures FewerShared(s, t)
  {
    SameIsFewer(s, u);
    SameIsFewer(v, t);
    FewerSharedTwice(s, u, v);
    FewerSharedTwice(s, v, t);
  }

  lemma CommitProcs(procs: map<nat, Process>, procs': map<nat, Process>, procs'': map<nat, Process>, pid: nat,
      staged: nat)
    requires pid in procs && staged !in procs && staged in procs' && procs' == procs[staged := procs'[staged]]
    requires pid in procs'' && procs'' == procs'[pid := procs''[pid]]
    ensures staged in procs'' && procs''[pid := procs''[staged]] - {staged} == procs[pid := procs'[staged]]
  {
  }

  /**
   `execve`: the process runs the new program and nobody else sees a change, or nothing has
   changed at all; it fails only when memory runs out, the image is not
   acceptable, or the arguments do not fit a stack page.
   */
  method Exec(k: Kernel, pid: nat, staged: nat, im: Elf.Image, base: nat, stack: Option<Page>, trampoline: Page)
    returns (ok: bool)
    requires CanStart(k.m, staged, base) && pid in k.m.procs && Parsed(im)
    modifies k
    ensures k.Valid() && Step(old(k.m), k.m, pid)
    ensures ok ==> LoadOk(im, base) && stack.Some? && Replaced(old(k.m), k.m, pid, im, base, stack.value, trampoline)
    ensures !ok ==> SameViews(old(k.m), k.m) && k.m.procs == old(k.m).procs && SlotsKept(old(k.m).slots, k.m.slots)
    ensures !ok ==> k.starved || !LoadOk(im, base) || stack.None?
  {
    ghost var s := k.m;
    NoSlots(s, staged);
    ok := LoadImage(k, staged, im, base, stack, trampoline);
    if ok {
      var switched: bool := *;
      if switched {
        Commit(k, s, pid, staged, im, base, stack.value, trampoline);
        ReplacedSteps(s, k.m, pid);
        return;
      }
      k.starved := true;
      LoadedIsHalf(s, k.m, staged, im, base, stack.value, trampoline);
    }
    ok := false;
    k.AbandonChild(s, staged);
    ForkSteps(s, k.m, pid, staged);
  }

  lemma LoadedIsHalf(s: State, t: State, pid: nat, im: Elf.Image, base: nat, stack: Page, trampoline: Page)
    requires Loaded(s, t, pid, im, base, stack, trampoline) && pid !in s.procs
    ensures HalfLoaded(s, t, pid)
  {
    assert t.procs - {pid} == s.procs;
  }
}

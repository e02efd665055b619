/**
 Mapping memory: the reservation that `mmap` makes, with the checks on descriptors and
 seals that come before it (xscore/kernel/process.c).
 */
module Mapping {
  import opened Bytes
  import opened Machine
  import opened Steps
  import opened Moves
  import opened Slotting
  import opened Changes
  import opened Faults
  import opened Access
  import opened Teardown
  import opened Reserving
  import opened Protecting
  import opened Sharing
  import opened Runs
  import opened Kernels
  import opened Objects
  import opened Placing

  /** What a caller asks to map: nothing, a fresh shared area, an object or a file. */
  datatype Request =
    | PrivateAnonymous
    | SharedAnonymous
    | SharedObject(id: nat, offset: nat)
    | PrivateObject(id: nat, offset: nat)
    | PrivateFile(data: seq<Byte>, immutable: bool)

  /**
   The loop that fills the slots: every page has its slot and one reference to the backing, and
   nothing else changes.
   */
  method ReservePages(k: Kernel, pid: nat, base: nat, count: nat, prot: Prot, source: Source, made: Option<Backing>)
    requires k.Valid() && CanReserve(k.m, pid, base, count, prot, source, made)
    modifies k`m
    ensures Progress(old(k.m), k.m, pid, base, count, prot, source, made)
    ensures Gained(old(k.m), k.m, pid, base, count, source)
  {
    ghost var s := k.m;
    ghost var states := FillSlots(k, pid, base, count, prot, source, made);
    ReservedNone(s, pid, base, count, prot, source, made);
    FillingReserves(states, pid, base, count, count, prot, source, made);
  }

  method FillSlots(k: Kernel, pid: nat, base: nat, count: nat, prot: Prot, source: Source, made: Option<Backing>)
    returns (ghost states: seq<State>)
    modifies k`m
    ensures |states| == count + 1 && states[0] == old(k.m) && states[count] == k.m
    ensures Filling(states, pid, base, prot, source, made)
  {
    states := [k.m];
    var i := 0;
    while i < count
      invariant i <= count && |states| == i + 1 && states[0] == old(k.m) && states[i] == k.m
      invariant Filling(states, pid, base, prot, source, made)
    {
      ghost var before := states;
      k.m := Slotted(k.m, PlaceAt(pid, base, i), SlotAt(prot, source, i), if i == 0 then made else None);
      states := states + [k.m];
      FillingMore(before, states, pid, base, prot, source, made);
      i := i + 1;
    }
  }

  lemma FillingMore(before: seq<State>, states: seq<State>, pid: nat, base: nat, prot: Prot, source: Source,
      made: Option<Backing>)
    requires Filling(before, pid, base, prot, source, made) && |states| == |before| + 1 && states[..|before|] == before
    requires SlotLaid(states[|before| - 1], states[|before|], pid, base, |before| - 1, prot, source, made)
    ensures Filling(states, pid, base, prot, source, made)
  {
    forall i: nat | i < |states| - 1
      ensures SlotLaidAt(states, pid, base, i, prot, source, made)
    {
      if i < |before| - 1 {
        assert SlotLaidAt(before, pid, base, i, prot, source, made);
        assert states[i] == before[i] && states[i + 1] == before[i + 1];
      }
    }
  }

  // ---------- What a mapping shows ----------

  /** The bytes that page `i` of the mapping must show. */
  ghost function Offered(s: State, request: Request, length: nat, i: nat): Page
    requires Known(s, request)
  {
    match request
    case PrivateAnonymous => ZeroPage()
    case SharedAnonymous => ZeroPage()
    case SharedObject(o, offset) => BackingPage(s, s.attached[ObjectRef(o)], offset / PAGE + i)
    case PrivateObject(o, offset) => SnapshotPage(Readable(s, s.attached[ObjectRef(o)], offset, length), i * PAGE)
    case PrivateFile(data, _) => SnapshotPage(data, i * PAGE)
  }

  /** Descriptors name objects in use. */
  predicate Known(s: State, request: Request) {
    request.SharedObject? || request.PrivateObject? ==> IsObject(s, request.id)
  }

  /** Why a request is refused before memory is asked for. */
  function MapRefusal(s: State, request: Request, length: nat, prot: Prot): Outcome
    requires Known(s, request)
  {
    match request
    case PrivateAnonymous => Done
    case SharedAnonymous => Done
    case PrivateFile(_, immutable) => if immutable && prot.write then Eacces else Done
    case PrivateObject(o, offset) => ObjectRange(s, o, offset, length)
    case SharedObject(o, offset) =>
      var seals, range := s.backings[s.attached[ObjectRef(o)]].seals, ObjectRange(s, o, offset, length);
      if range == Done && prot.write && (SealWrite in seals || SealFutureWrite in seals) then Eperm else range
  }

  /** A mapping of an object must start and end within the pages its length reaches into. */
  function ObjectRange(s: State, o: nat, offset: nat, length: nat): Outcome
    requires IsObject(s, o)
  {
    var size := s.backings[s.attached[ObjectRef(o)]].length;
    if offset % PAGE != 0 || offset > size || RoundUp(length) > RoundUp(size) - offset then Einval else Done
  }

  /**
   The same said of the mapping's last page, which must start below the end of an object, and of
   the permissions: only writing can be refused, to an unchangeable file or a sealed object.
   */
  ghost function Answer(s: State, request: Request, length: nat, prot: Prot): Outcome
    requires Known(s, request) && length > 0
  {
    if request.SharedObject? || request.PrivateObject? then
      var backing := s.backings[s.attached[ObjectRef(request.id)]];
      if request.offset % PAGE != 0 || request.offset + (length - 1) / PAGE * PAGE >= backing.length then Einval
      else if request.SharedObject? && prot.write && (SealWrite in backing.seals || SealFutureWrite in backing.seals)
      then Eperm else Done
    else if request.PrivateFile? && request.immutable && prot.write then Eacces else Done
  }

  lemma AnswerIs(s: State, request: Request, length: nat, prot: Prot)
    requires Known(s, request) && length > 0
    ensures MapRefusal(s, request, length, prot) == Answer(s, request, length, prot)
  {
    if request.SharedObject? || request.PrivateObject? {
      LastPageInside(s.backings[s.attached[ObjectRef(request.id)]].length, request.offset, length);
    }
  }

  lemma LastPageInside(size: nat, offset: nat, length: nat)
    requires length > 0
    ensures offset % PAGE == 0 ==>
      (offset <= size && RoundUp(length) <= RoundUp(size) - offset <==> offset + (length - 1) / PAGE * PAGE < size)
  {
    if offset % PAGE == 0 {
      var last := (length - 1) / PAGE * PAGE;
      assert RoundUp(length) == last + PAGE;
      assert offset + last < size <==> offset + last + PAGE <= RoundUp(size);
    }
  }

  /** The source a request leads to, given the backing it brings into being. */
  ghost predicate Leads(s: State, request: Request, length: nat, source: Source, made: Option<Backing>)
    requires Known(s, request)
  {
    if request.PrivateAnonymous? then source == Anonymous && made == None
    else if source.Anonymous? then false
    else match request
    case SharedObject(o, offset) => source == Shared(s.attached[ObjectRef(o)], offset / PAGE) && made == None
    case SharedAnonymous => Brings(s, source, Shared(source.backing, 0), made, FreshArea(true, false, length, []))
    case PrivateObject(o, offset) =>
      Brings(s, source, Snapshot(source.backing, 0), made,
        FreshArea(false, false, length, Readable(s, s.attached[ObjectRef(o)], offset, length)))
    case PrivateFile(data, immutable) =>
      Brings(s, source, Snapshot(source.backing, 0), made, FreshArea(false, immutable, length, data))
  }

  predicate Brings(s: State, source: Source, wanted: Source, made: Option<Backing>, backing: Backing) {
    source == wanted && !source.Anonymous? && source.backing !in s.backings && made == Some(backing)
  }

  function FreshArea(shared: bool, immutable: bool, length: nat, data: seq<Byte>): Backing {
    Backing(shared, false, immutable, RoundUp(length), false, {}, data)
  }

  lemma LeadsFits(s: State, request: Request, length: nat, prot: Prot, source: Source, made: Option<Backing>)
    requires Known(s, request) && Leads(s, request, length, source, made)
    requires MapRefusal(s, request, length, prot) == Done
    ensures made.Some? ==> !source.Anonymous? && source.backing !in s.backings && made.value.seals == {}
    ensures SourceFits(BackingsWith(s.backings, source, made), PageCount(length), prot, source)
  {
    assert PageCount(RoundUp(length)) == PageCount(length);
    if request.SharedObject? {
      ObjectPages(s.backings[source.backing].length, request.offset, length);
    }
  }

  lemma ObjectPages(size: nat, offset: nat, length: nat)
    requires offset % PAGE == 0 && RoundUp(length) <= RoundUp(size) - offset
    ensures offset / PAGE + PageCount(length) <= PageCount(size)
  {
  }

  /** A reserved page shows what was offered. */
  lemma ReservedView(s: State, t: State, pid: nat, base: nat, count: nat, prot: Prot, request: Request, length: nat,
                     source: Source, made: Option<Backing>, i: nat)
    requires CellsOk(s.resident, s.slots, s.backings) && Known(s, request) && Leads(s, request, length, source, made)
    requires t == s.(slots := Extended(s.slots, pid, base, count, prot, source), attached := t.attached,
      shares := t.shares,
                     backings := BackingsWith(s.backings, source, if count == 0 then None else made))
    requires i < count && PlaceAt(pid, base, i) !in s.slots
    ensures View(t, PlaceAt(pid, base, i)) == Some(Offered(s, request, length, i))
  {
    var pl := PlaceAt(pid, base, i);
    ExtendedAt(s.slots, pid, base, count, prot, source, i);
    assert SlotCell(pl) in s.resident ==> CellOk(SlotCell(pl), s.slots, s.backings);
    if request.SharedAnonymous? {
      assert BackingCell(source.backing, i) in s.resident ==>
        CellOk(BackingCell(source.backing, i), s.slots, s.backings);
    }
  }

  lemma ReserveSteps(s: State, t: State, pid: nat, base: nat, count: nat, prot: Prot, source: Source,
      made: Option<Backing>)
    requires Progress(s, t, pid, base, count, prot, source, made)
    requires made.Some? ==> !source.Anonymous? && source.backing !in s.backings
    ensures Step(s, t, pid)
  {
    ReserveGuards(s, t, source, made, count);
    ReserveIsolates(s, t, pid, base, count, prot, source);
  }

  lemma ReserveGuards(s: State, t: State, source: Source, made: Option<Backing>, count: nat)
    requires t.frames == s.frames && t.resident == s.resident
    requires t.backings == BackingsWith(s.backings, source, if count == 0 then None else made)
    requires made.Some? ==> !source.Anonymous? && source.backing !in s.backings
    ensures Guarded(s, t)
  {
    forall b | b in s.backings && b in t.backings
      ensures SealsRespected(s, t, b)
    {
      assert forall i: nat :: BackingByte(t, b, i) == BackingByte(s, b, i);
    }
  }

  lemma ReserveIsolates(s: State, t: State, pid: nat, base: nat, count: nat, prot: Prot, source: Source)
    requires ViewsOutside(s, t, Pages(pid, base, count)) && t.slots == Extended(s.slots, pid, base, count, prot, source)
    ensures Isolated(s, t, pid)
  {
    ExtendedKeys(s.slots, pid, base, count, prot, source);
    forall pl: Place | pl.pid != pid && pl.pid in s.procs
      ensures PlaceIsolated(s, t, pl)
    {
      if pl in Pages(pid, base, count) {
        PagesIn(pid, base, count, pl);
      }
      assert View(t, pl) == View(s, pl);
    }
  }

  // ---------- The same, byte by byte ----------

  /** The byte that a process reads at distance `j` from the start of a mapping. */
  ghost function MappedByte(t: State, pid: nat, base: nat, j: nat): Option<Byte> {
    var v := View(t, Place(pid, base + j / PAGE * PAGE));
    if v.Some? then Some(v.value[j % PAGE]) else None
  }

  /** The byte that belongs there: of the file, of the object from the offset on, or zero. */
  ghost function AskedByte(s: State, request: Request, length: nat, j: nat): Byte
    requires Known(s, request)
  {
    match request
    case PrivateAnonymous => 0
    case SharedAnonymous => 0
    case SharedObject(o, offset) => BackingByte(s, s.attached[ObjectRef(o)], offset + j)
    case PrivateObject(o, offset) =>
      var b := s.attached[ObjectRef(o)];
      if j < length && offset + j < s.backings[b].length then BackingByte(s, b, offset + j) else 0
    case PrivateFile(data, _) => if j < |data| then data[j] else 0
  }

  /** Every byte of every page that the length reaches into is the one that was asked for. */
  ghost predicate BytesShown(s: State, t: State, pid: nat, base: nat, length: nat, request: Request)
    requires Known(s, request)
  {
    forall j: nat {:trigger MappedByte(t, pid, base, j)} :: j / PAGE * PAGE < length ==>
      MappedByte(t, pid, base, j) == Some(AskedByte(s, request, length, j))
  }

  lemma PageReached(length: nat, i: nat)
    ensures i < PageCount(length) <==> i * PAGE < length
  {
  }

  lemma OfferedByte(s: State, request: Request, length: nat, j: nat)
    requires Known(s, request) && (request.SharedObject? || request.PrivateObject? ==> request.offset % PAGE == 0)
    ensures Offered(s, request, length, j / PAGE)[j % PAGE] == AskedByte(s, request, length, j)
  {
    var i := j / PAGE;
    assert i * PAGE + j % PAGE == j;
    if request.SharedObject? {
      assert (request.offset + j) / PAGE == request.offset / PAGE + i && (request.offset + j) % PAGE == j % PAGE;
    }
  }

  lemma PagesShowBytes(s: State, t: State, pid: nat, base: nat, length: nat, request: Request)
    requires Known(s, request) && (request.SharedObject? || request.PrivateObject? ==> request.offset % PAGE == 0)
    requires forall i: nat :: i < PageCount(length) ==>
      View(t, PlaceAt(pid, base, i)) == Some(Offered(s, request, length, i))
    ensures BytesShown(s, t, pid, base, length, request)
  {
    forall j: nat | j / PAGE * PAGE < length
      ensures MappedByte(t, pid, base, j) == Some(AskedByte(s, request, length, j))
    {
      PageReached(length, j / PAGE);
      OfferedByte(s, request, length, j);
      assert Place(pid, base + j / PAGE * PAGE) == PlaceAt(pid, base, j / PAGE);
    }
  }

  /** Whether a place lies in a page that a mapping of `length` bytes at `base` reaches into. */
  predicate Within(q: Place, pid: nat, base: nat, length: nat) {
    q.pid == pid && base <= q.page && q.page - base < length && (q.page - base) % PAGE == 0
  }

  /** Exactly the pages that the length reaches into are new, and can be accessed exactly as the protection says. */
  ghost predicate Opened(s: State, t: State, pid: nat, base: nat, length: nat, prot: Prot) {
    && (forall q :: q in t.slots <==> q in s.slots || Within(q, pid, base, length))
    && (pid in t.procs && t.procs[pid].stackBottom != 0 ==>
        forall q :: Within(q, pid, base, length) ==>
          && (Accessible(t, pid, q.page, false) <==> prot != PROT_NONE)
          && (Accessible(t, pid, q.page, true) <==> prot.write))
  }

  lemma WithinIs(q: Place, pid: nat, base: nat, length: nat)
    ensures Within(q, pid, base, length) <==> q in Pages(pid, base, PageCount(length))
    ensures Within(q, pid, base, length) ==> q == PlaceAt(pid, base, (q.page - base) / PAGE)
  {
    if Within(q, pid, base, length) {
      var i := (q.page - base) / PAGE;
      PageReached(length, i);
      assert q == PlaceAt(pid, base, i);
    }
    if q in Pages(pid, base, PageCount(length)) {
      var i: nat :| i < PageCount(length) && PlaceAt(pid, base, i) == q;
      PageReached(length, i);
    }
  }

  lemma PageOpened(s: State, t: State, pid: nat, base: nat, length: nat, prot: Prot, source: Source, q: Place)
    requires Good(s) && Good(t) && pid in t.procs && t.procs[pid].stackBottom != 0
    requires RangeFree(s, pid, base, PageCount(length))
    requires t.slots == Extended(s.slots, pid, base, PageCount(length), prot, source) && t.resident == s.resident
    requires Within(q, pid, base, length) && base % PAGE == 0
    ensures Accessible(t, pid, q.page, false) <==> prot != PROT_NONE
    ensures Accessible(t, pid, q.page, true) <==> prot.write
  {
    var i := (q.page - base) / PAGE;
    WithinIs(q, pid, base, length);
    PageReached(length, i);
    ExtendedAt(s.slots, pid, base, PageCount(length), prot, source, i);
    assert SlotCell(q) in s.resident ==> CellOk(SlotCell(q), s.slots, s.backings);
    AccessIs(t, pid, q.page);
  }

  lemma RangeOpened(s: State, t: State, pid: nat, base: nat, length: nat, prot: Prot, source: Source)
    requires Good(s) && Good(t) && RangeFree(s, pid, base, PageCount(length)) && base % PAGE == 0
    requires t.slots == Extended(s.slots, pid, base, PageCount(length), prot, source) && t.resident == s.resident
    ensures Opened(s, t, pid, base, length, prot)
  {
    ExtendedKeys(s.slots, pid, base, PageCount(length), prot, source);
    forall q
      ensures q in t.slots <==> q in s.slots || Within(q, pid, base, length)
    {
      WithinIs(q, pid, base, length);
    }
    if pid in t.procs && t.procs[pid].stackBottom != 0 {
      forall q | Within(q, pid, base, length)
        ensures Accessible(t, pid, q.page, false) <==> prot != PROT_NONE
        ensures Accessible(t, pid, q.page, true) <==> prot.write
      {
        PageOpened(s, t, pid, base, length, prot, source, q);
      }
    }
  }

  /** The backing for a request: the object's own, a new one, or none. */
  method ChooseSource(k: Kernel, request: Request, length: nat)
    returns (ok: bool, source: Source, made: Option<Backing>)
    requires k.Valid() && Known(k.m, request)
    modifies k`starved
    ensures ok ==> Leads(k.m, request, length, source, made)
    ensures !ok ==> k.starved
  {
    if request.PrivateAnonymous? {
      return true, Anonymous, None;
    }
    if request.SharedObject? {
      return true, Shared(k.m.attached[ObjectRef(request.id)], request.offset / PAGE), None;
    }
    var b: nat := *;
    if b in k.m.backings {
      k.starved := true;
      return false, Anonymous, None;
    }
    if request.SharedAnonymous? {
      return true, Shared(b, 0), Some(FreshArea(true, false, length, []));
    }
    if request.PrivateFile? {
      return true, Snapshot(b, 0), Some(FreshArea(false, request.immutable, length, request.data));
    }
    var data := ReadObject(k, request.id, request.offset, length);
    return true, Snapshot(b, 0), Some(FreshArea(false, false, length, data));
  }

  /** The slots, backings and references after a request is granted; everything else is as before. */
  ghost predicate Granted(s: State, t: State, pid: nat, base: nat, length: nat, prot: Prot, request: Request)
    requires Known(s, request)
  {
    exists source, made ::
      Leads(s, request, length, source, made) && Reserved(s, t, pid, base, length, prot, source, made)
  }

  ghost predicate Reserved(s: State, t: State, pid: nat, base: nat, length: nat, prot: Prot, source: Source,
      made: Option<Backing>) {
    Progress(s, t, pid, base, PageCount(length), prot, source, made)
      && Gained(s, t, pid, base, PageCount(length), source)
  }

  /**
   `mmap` at a free range: the new pages show exactly what was asked for, nothing else
   changes, and a write-sealed object is never mapped writably.
   */
  method Mmap(k: Kernel, pid: nat, base: nat, length: nat, prot: Prot, request: Request) returns (r: Outcome)
    requires k.Valid() && pid in k.m.procs && length > 0
    requires RangeFree(k.m, pid, base, PageCount(length)) && Known(k.m, request)
    modifies k
    ensures k.Valid() && Step(old(k.m), k.m, pid)
    ensures if r == Enomem then k.starved else r == MapRefusal(old(k.m), request, length, prot)
    ensures r != Done ==> k.m == old(k.m)
    ensures r == Done ==> ViewsOutside(old(k.m), k.m, Pages(pid, base, PageCount(length)))
    ensures r == Done ==> forall i: nat :: i < PageCount(length) ==>
      View(k.m, PlaceAt(pid, base, i)) == Some(Offered(old(k.m), request, length, i))
    ensures r == Done ==> Granted(old(k.m), k.m, pid, base, length, prot, request)
    ensures r == Done ==> BytesShown(old(k.m), k.m, pid, base, length, request)
    ensures r == Done ==> Opened(old(k.m), k.m, pid, base, length, prot)
    ensures r == Enomem || r == Answer(old(k.m), request, length, prot)
  {
    ghost var s := k.m;
    Unchanged(s);
    AnswerIs(s, request, length, prot);
    InvisibleSteps(s, s, pid);
    r := MapRefusal(k.m, request, length, prot);
    if r != Done {
      return;
    }
    var ok, source, made := ChooseSource(k, request, length);
    if !ok {
      return Enomem;
    }
    LeadsFits(s, request, length, prot, source, made);
    ReservePages(k, pid, base, PageCount(length), prot, source, made);
    assert Leads(s, request, length, source, made) && Reserved(s, k.m, pid, base, length, prot, source, made);
    ReserveSteps(s, k.m, pid, base, PageCount(length), prot, source, made);
    forall i: nat | i < PageCount(length)
      ensures View(k.m, PlaceAt(pid, base, i)) == Some(Offered(s, request, length, i))
    {
      ReservedView(s, k.m, pid, base, PageCount(length), prot, request, length, source, made, i);
    }
    PagesShowBytes(s, k.m, pid, base, length, request);
    RangeOpened(s, k.m, pid, base, length, prot, source);
  }

  // ---------- What a mapping is made of ----------

  /**
   A slot of a new mapping: the protection asked for, and nothing, the object, or a new backing as
   long as the whole pages, without seals, and unchangeable if the file is.
   */
  ghost predicate BackedSlot(s: State, t: State, slot: Slot, length: nat, prot: Prot, request: Request)
    requires Known(s, request)
  {
    && slot.region.Mapping? && slot.prot == prot && !slot.cow
    && match request
       case PrivateAnonymous => slot.source == Anonymous
       case SharedObject(o, _) => slot.source.Shared? && slot.source.backing == s.attached[ObjectRef(o)]
       case _ =>
         && slot.source.Shared? == request.SharedAnonymous? && !slot.source.Anonymous?
         && slot.source.backing !in s.backings && slot.source.backing in t.backings
         && var b := t.backings[slot.source.backing];
            && b.shared == request.SharedAnonymous? && !b.memfd && b.seals == {}
            && (b.immutable <==> request.PrivateFile? && request.immutable)
            && b.length % PAGE == 0 && length <= b.length < length + PAGE
  }

  /** Every page of a mapping that was granted is backed as the request says. */
  lemma GrantedIsBacked(s: State, t: State, pid: nat, base: nat, length: nat, prot: Prot, request: Request, q: Place)
    requires Known(s, request) && length > 0 && Granted(s, t, pid, base, length, prot, request)
    requires Within(q, pid, base, length)
    ensures q in t.slots && BackedSlot(s, t, t.slots[q], length, prot, request)
  {
    var source, made :| Leads(s, request, length, source, made)
      && Reserved(s, t, pid, base, length, prot, source, made);
    PageIsBacked(s, t, pid, base, length, prot, request, source, made, q);
  }

  lemma PageIsBacked(s: State, t: State, pid: nat, base: nat, length: nat, prot: Prot, request: Request, source: Source,
      made: Option<Backing>, q: Place)
    requires Known(s, request) && length > 0 && Leads(s, request, length, source, made)
    requires t.slots == Extended(s.slots, pid, base, PageCount(length), prot, source)
    requires t.backings == BackingsWith(s.backings, source, made) && Within(q, pid, base, length)
    ensures q in t.slots && BackedSlot(s, t, t.slots[q], length, prot, request)
  {
    var i := (q.page - base) / PAGE;
    WithinIs(q, pid, base, length);
    PageReached(length, i);
    ExtendedAt(s.slots, pid, base, PageCount(length), prot, source, i);
    LeadsBacked(s, t, length, prot, request, source, made, i);
  }

  lemma LeadsBacked(s: State, t: State, length: nat, prot: Prot, request: Request, source: Source,
      made: Option<Backing>, i: nat)
    requires Known(s, request) && length > 0 && Leads(s, request, length, source, made)
    requires t.backings == BackingsWith(s.backings, source, made)
    ensures BackedSlot(s, t, SlotAt(prot, source, i), length, prot, request)
  {
    RoundedLength(length);
  }

  lemma RoundedLength(length: nat)
    ensures RoundUp(length) % PAGE == 0 && length <= RoundUp(length) < length + PAGE
  {
  }
}

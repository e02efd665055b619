/**
 The operations on shared-memory objects and memfds: creation, release, reading, writing,
 truncation and sealing (xscore/kernel/process.c).
 */
module Objects {
  import opened Bytes
  import opened Ledger
  import opened Machine
  import opened Steps
  import opened Moves
  import opened Slotting
  import opened Changes
  import opened Faults
  import opened Teardown
  import opened Protecting
  import opened Sharing
  import opened Runs
  import opened Kernels

  /** No object may grow beyond this many bytes. */
  const SHM_MAX_SIZE: nat := 16384 * PAGE

  const MAX_OBJECTS: nat := 16

  /** An entry of the object table that is in use. */
  predicate IsObject(s: State, o: nat) {
    ObjectRef(o) in s.attached && s.attached[ObjectRef(o)] in s.backings && s.backings[s.attached[ObjectRef(o)]].shared
  }

  // ---------- Creation and release ----------

  function FreshBacking(memfd: bool, sealable: bool): Backing {
    Backing(true, memfd, false, 0, sealable, if memfd && !sealable then {SealSeal} else {}, [])
  }

  /** An object of length 0 without a byte in it; a memfd that must not be sealed is sealed against that. */
  ghost predicate BlankObject(s: State, o: nat, memfd: bool, sealable: bool) {
    && IsObject(s, o)
    && var b := s.attached[ObjectRef(o)]; var backing := s.backings[b];
       && backing.memfd == memfd && backing.sealable == sealable && backing.length == 0
       && backing.seals == (if memfd && !sealable then {SealSeal} else {})
       && HoldsAlone(s, o) && forall i: nat :: BackingByte(s, b, i) == 0
  }

  lemma FreshIsBlank(s: State, o: nat, b: nat, memfd: bool, sealable: bool)
    requires Good(s) && b !in s.backings
    ensures BlankObject(Created(s, o, b, FreshBacking(memfd, sealable)), o, memfd, sealable)
  {
    var t := Created(s, o, b, FreshBacking(memfd, sealable));
    assert BackingsConserved(s.attached, s.shares, s.backings);
    forall i: nat
      ensures BackingByte(t, b, i) == 0
    {
      assert BackingCell(b, i / PAGE) in s.resident ==> CellOk(BackingCell(b, i / PAGE), s.slots, s.backings);
    }
  }

  /** No slot of any process and no other object holds the backing of `o`. */
  ghost predicate HoldsAlone(s: State, o: nat)
    requires ObjectRef(o) in s.attached
  {
    forall h :: h in s.attached && s.attached[h] == s.attached[ObjectRef(o)] ==> h == ObjectRef(o)
  }

  lemma CreateSteps(s: State, o: nat, b: nat, backing: Backing, t: State, pid: nat)
    requires Good(t) && SameViews(s, t) && t == Created(s, o, b, backing) && b !in s.backings
    ensures Step(s, t, pid)
  {
    SameIsolates(s, t, pid);
  }

  /** An empty object in the first free entry of the table, or none when the table or memory is full. */
  method CreateObject(k: Kernel, pid: nat, memfd: bool, sealable: bool) returns (made: Option<nat>)
    requires k.Valid()
    modifies k
    ensures k.Valid() && SameViews(old(k.m), k.m) && Step(old(k.m), k.m, pid)
    ensures made.None? ==> k.m == old(k.m)
    ensures made.None? ==> (k.starved || forall i :: 0 <= i < MAX_OBJECTS ==> ObjectRef(i) in k.m.attached)
    ensures made.Some? ==> ObjectRef(made.value) !in old(k.m).attached && ObjectRef(made.value) in k.m.attached
    ensures made.Some? ==> IsObject(k.m, made.value)
    ensures made.Some? ==> forall i :: 0 <= i < made.value ==> ObjectRef(i) in old(k.m).attached
    ensures made.Some? ==> k.m.attached[ObjectRef(made.value)] !in old(k.m).backings
    ensures made.Some? ==>
      k.m == Created(old(k.m), made.value, k.m.attached[ObjectRef(made.value)], FreshBacking(memfd, sealable))
    ensures made.Some? ==> BlankObject(k.m, made.value, memfd, sealable)
  {
    ghost var s := k.m;
    Unchanged(s);
    InvisibleSteps(s, s, pid);
    var o := 0;
    while o < MAX_OBJECTS && ObjectRef(o) in k.m.attached
      invariant o <= MAX_OBJECTS && forall i :: 0 <= i < o ==> ObjectRef(i) in k.m.attached
    {
      o := o + 1;
    }
    var b: nat := *;
    if o == MAX_OBJECTS {
      return None;
    }
    if b in k.m.backings {
      k.starved := true;
      return None;
    }
    var backing := FreshBacking(memfd, sealable);
    CreateStep(s, o, b, backing);
    k.m := Created(k.m, o, b, backing);
    CreateSteps(s, o, b, backing, k.m, pid);
    FreshIsBlank(s, o, b, memfd, sealable);
    return Some(o);
  }

  lemma CloseSteps(s: State, t: State, pid: nat)
    requires Good(t) && SameViews(s, t) && FewerShared(s, t) && t.slots == s.slots && t.procs == s.procs
    ensures Step(s, t, pid)
  {
    FewerGuards(s, t);
    SameIsolates(s, t, pid);
  }

  /** An address that is no page start, so no slot lies there. */
  const NOWHERE: Place := Place(0, 1)

  lemma NowhereFree(s: State)
    requires Good(s)
    ensures NOWHERE !in s.slots && SlotCell(NOWHERE) !in s.resident
  {
    assert NOWHERE in s.slots ==> SlotOk(NOWHERE, s.slots[NOWHERE], s.backings, s.procs);
    assert SlotCell(NOWHERE) in s.resident ==> CellOk(SlotCell(NOWHERE), s.slots, s.backings);
  }

  lemma NowhereSame(s: State, t: State)
    requires ViewsBut(s, t, NOWHERE) && NOWHERE !in s.slots && t.slots == s.slots && t.procs == s.procs
    ensures SameViews(s, t)
  {
    forall pl
      ensures View(t, pl) == View(s, pl)
    {
    }
  }

  lemma ClosedShared(s: State, t: State, u: State, o: nat)
    requires ObjectRef(o) in t.attached && t.attached[ObjectRef(o)] in t.shares
    requires t.shares[t.attached[ObjectRef(o)]] > 0
    requires SharedBut(s, t, t.attached[ObjectRef(o)]) && u == Closed(t, o)
    requires t.shares[t.attached[ObjectRef(o)]] > 1 ==> t == s
    ensures FewerShared(s, u)
  {
    forall b: nat | b in u.backings
      ensures BackingKept(s, u, b)
    {
      forall j: nat
        ensures BackingPage(u, b, j) == BackingPage(s, b, j)
      {
        assert BackingPage(u, b, j) == BackingPage(t, b, j);
      }
    }
  }

  /** The object lets go of its backing; the last reference frees the backing and all its frames. */
  method CloseObject(k: Kernel, pid: nat, o: nat)
    requires k.Valid() && ObjectRef(o) in k.m.attached
    modifies k
    ensures k.Valid() && SameViews(old(k.m), k.m) && FewerShared(old(k.m), k.m) && Step(old(k.m), k.m, pid)
    ensures k.m.slots == old(k.m).slots && k.m.attached == old(k.m).attached - {ObjectRef(o)}
    ensures old(k.m).attached[ObjectRef(o)] in old(k.m).shares
    ensures old(k.m).attached[ObjectRef(o)] in k.m.backings <==> old(k.m).shares[old(k.m).attached[ObjectRef(o)]] > 1
  {
    ghost var s := k.m;
    var b := k.m.attached[ObjectRef(o)];
    CloseFacts(s, o);
    NowhereFree(s);
    if k.m.shares[b] == 1 {
      k.DropBackingFrames(NOWHERE, b);
      NowhereSame(s, k.m);
    }
    ghost var t := k.m;
    CloseOne(k, o);
    ClosedShared(s, t, k.m, o);
    SameViewsTwice(s, t, k.m);
    CloseSteps(s, k.m, pid);
  }

  method CloseOne(k: Kernel, o: nat)
    requires k.Valid() && ObjectRef(o) in k.m.attached
    requires k.m.attached[ObjectRef(o)] in k.m.shares && k.m.shares[k.m.attached[ObjectRef(o)]] > 0
    requires k.m.shares[k.m.attached[ObjectRef(o)]] == 1 ==>
      && NoSlotNames(k.m, k.m.attached[ObjectRef(o)])
      && forall j :: BackingCell(k.m.attached[ObjectRef(o)], j) !in k.m.resident
    modifies k`m
    ensures k.Valid() && SameViews(old(k.m), k.m) && k.m == Closed(old(k.m), o)
  {
    CloseStep(k.m, o);
    k.m := Closed(k.m, o);
  }

  // ---------- Reading and writing ----------

  /** The frame of a page of a shared backing, allocated zeroed when the page has none. */
  method PageForWrite(k: Kernel, b: nat, page: nat) returns (ok: bool)
    requires k.Valid() && b in k.m.backings && k.m.backings[b].shared
    modifies k
    ensures Invisible(old(k.m), k.m)
    ensures k.m == old(k.m).(frames := k.m.frames, refs := k.m.refs, resident := k.m.resident)
    ensures ok ==> BackingCell(b, page) in k.m.resident
    ensures !ok ==> k.m == old(k.m) && k.starved
  {
    ghost var s := k.m;
    var c := BackingCell(b, page);
    Unchanged(s);
    if c in k.m.resident {
      return true;
    }
    var f := k.AllocatePage(ZeroPage());
    if f == 0 {
      return false;
    }
    BackingFillStep(s, b, page, f);
    k.m := k.m.(resident := k.m.resident[c := f]);
    return true;
  }

  lemma SameThenWritten(s: State, t: State, u: State, b: nat, at: nat, data: seq<Byte>)
    requires SameShared(s, t) && Written(t, u, b, at, data)
    ensures Written(s, u, b, at, data)
  {
    forall c: nat, i: nat
      ensures BackingByte(t, c, i) == BackingByte(s, c, i)
    {
      assert BackingPage(t, c, i / PAGE) == BackingPage(s, c, i / PAGE);
    }
  }

  lemma SameThenExcept(s: State, t: State, u: State, b: nat)
    requires SameViews(s, t) && ViewsExcept(t, u, b) && t.slots == s.slots
    ensures ViewsExcept(s, u, b)
  {
    forall pl | !(pl in s.slots && s.slots[pl].source.Shared? && s.slots[pl].source.backing == b)
      ensures View(u, pl) == View(s, pl)
    {
      assert View(t, pl) == View(s, pl);
    }
  }

  /** Bytes within one page that is resident. */
  method StoreChunk(k: Kernel, b: nat, at: nat, chunk: seq<Byte>)
    requires k.Valid() && BackingCell(b, at / PAGE) in k.m.resident && at % PAGE + |chunk| <= PAGE
    modifies k`m
    ensures k.Valid() && ViewsExcept(old(k.m), k.m, b) && Written(old(k.m), k.m, b, at, chunk)
    ensures k.m == old(k.m).(frames := k.m.frames)
  {
    ghost var s := k.m;
    var f := k.m.resident[BackingCell(b, at / PAGE)];
    FrameKnown(s, BackingCell(b, at / PAGE));
    var content := Patch(k.m.frames[f], at % PAGE, chunk);
    k.m := Stored(k.m, f, content);
    WriteStep(s, b, at / PAGE, content, k.m);
    ChunkWritten(s, k.m, b, at, chunk);
  }

  /** One iteration of a write. */
  method WriteChunk(k: Kernel, b: nat, at: nat, chunk: seq<Byte>) returns (ok: bool)
    requires k.Valid() && b in k.m.backings && k.m.backings[b].shared && at % PAGE + |chunk| <= PAGE
    modifies k
    ensures k.Valid() && ViewsExcept(old(k.m), k.m, b)
    ensures k.m == old(k.m).(frames := k.m.frames, refs := k.m.refs, resident := k.m.resident)
    ensures ok ==> Written(old(k.m), k.m, b, at, chunk)
    ensures !ok ==> k.m == old(k.m) && k.starved
  {
    ghost var s := k.m;
    ok := PageForWrite(k, b, at / PAGE);
    if ok {
      ghost var t := k.m;
      StoreChunk(k, b, at, chunk);
      SameThenWritten(s, t, k.m, b, at, chunk);
      SameThenExcept(s, t, k.m, b);
    }
  }

  /** Where the copy that starts at `at + count` must stop: at the page's end or at the total. */
  function ChunkEnd(at: nat, count: nat, total: nat): (next: nat)
    requires count < total
    ensures count < next <= total && (at + count) % PAGE + (next - count) <= PAGE
  {
    var room := PAGE - (at + count) % PAGE;
    if room > total - count then total else count + room
  }

  function NextChunk(at: nat, data: seq<Byte>, count: nat): (chunk: seq<Byte>)
    requires count < |data|
    ensures 0 < |chunk| <= |data| - count && chunk == data[count..count + |chunk|]
    ensures (at + count) % PAGE + |chunk| <= PAGE
  {
    data[count..ChunkEnd(at, count, |data|)]
  }

  /** The next chunk of a write that has already stored `count` bytes. */
  method WriteNext(k: Kernel, ghost s: State, b: nat, at: nat, ghost data: seq<Byte>, count: nat, chunk: seq<Byte>)
    returns (ok: bool)
    requires k.Valid() && b in k.m.backings && k.m.backings[b].shared && (at + count) % PAGE + |chunk| <= PAGE
    requires count + |chunk| <= |data| && chunk == data[count..count + |chunk|]
    requires ViewsExcept(s, k.m, b) && WrittenSome(s, k.m, b, at, data, count) && k.m.slots == s.slots
    modifies k
    ensures k.Valid() && ViewsExcept(s, k.m, b)
    ensures k.m == old(k.m).(frames := k.m.frames, refs := k.m.refs, resident := k.m.resident)
    ensures ok ==> WrittenSome(s, k.m, b, at, data, count + |chunk|)
    ensures !ok ==> k.m == old(k.m) && k.starved
  {
    ghost var t := k.m;
    ok := WriteChunk(k, b, at + count, chunk);
    if ok {
      ChunkFollows(s, t, k.m, b, at, data, count, chunk);
    }
  }

  /** As many bytes as memory allows, page by page. */
  method WriteBytes(k: Kernel, b: nat, at: nat, data: seq<Byte>) returns (count: nat)
    requires k.Valid() && b in k.m.backings && k.m.backings[b].shared
    modifies k
    ensures k.Valid() && ViewsExcept(old(k.m), k.m, b)
    ensures k.m == old(k.m).(frames := k.m.frames, refs := k.m.refs, resident := k.m.resident)
    ensures count <= |data| && Written(old(k.m), k.m, b, at, data[..count])
    ensures count == 0 ==> k.m == old(k.m)
    ensures count < |data| ==> k.starved
  {
    ghost var s := k.m;
    count := 0;
    while count < |data|
      invariant count <= |data| && k.Valid() && ViewsExcept(s, k.m, b)
      invariant k.m == s.(frames := k.m.frames, refs := k.m.refs, resident := k.m.resident)
      invariant WrittenSome(s, k.m, b, at, data, count)
      invariant count == 0 ==> k.m == s
    {
      var chunk := NextChunk(at, data, count);
      var ok := WriteNext(k, s, b, at, data, count, chunk);
      if !ok {
        break;
      }
      count := count + |chunk|;
    }
    WrittenPrefix(s, k.m, b, at, data, count);
  }

  /** Length and seals of a backing move; no view changes. */
  method Retune(k: Kernel, b: nat, length: nat, seals: set<Seal>)
    requires k.Valid() && b in k.m.backings && (seals == k.m.backings[b].seals || k.m.backings[b].memfd)
    requires length < k.m.backings[b].length ==> NoSlotNames(k.m, b)
    requires SealWrite in seals && SealWrite !in k.m.backings[b].seals ==> NoWritableMapping(k.m, b)
    modifies k`m
    ensures k.Valid() && SameViews(old(k.m), k.m) && k.m == Retuned(old(k.m), b, length, seals)
  {
    RetuneInv(k.m, b, length, seals);
    RetuneViews(k.m, b, length, seals);
    k.m := k.m.(backings := k.m.backings[b := k.m.backings[b].(length := length, seals := seals)]);
  }

  ghost predicate NoWritableMapping(s: State, b: nat) {
    forall pl :: pl in s.slots && s.slots[pl].source.Shared? && s.slots[pl].source.backing == b ==>
      !s.slots[pl].prot.write
  }

  /** How many bytes a write may ask for at an offset. */
  function Wanted(offset: nat, length: nat): nat {
    if offset >= SHM_MAX_SIZE then 0 else if length > SHM_MAX_SIZE - offset then SHM_MAX_SIZE - offset else length
  }

  /** Why a write to an object is refused before anything is written. */
  function Refusal(backing: Backing, offset: nat, length: nat): Outcome {
    if SealWrite in backing.seals || SealFutureWrite in backing.seals then Eperm
    else if offset >= SHM_MAX_SIZE then Enospc
    else if offset + Wanted(offset, length) > backing.length && SealGrow in backing.seals then Eperm
    else Done
  }

  lemma WriteSteps(s: State, t: State, u: State, b: nat, at: nat, data: seq<Byte>, length: nat, pid: nat)
    requires Good(u) && b in s.backings && t.backings == s.backings && t.slots == s.slots && t.procs == s.procs
    requires Written(s, t, b, at, data) && ViewsExcept(s, t, b)
    requires u == Retuned(t, b, length, s.backings[b].seals) && SameViews(t, u)
    requires s.backings[b].length <= length && SealWrite !in s.backings[b].seals
    requires SealGrow in s.backings[b].seals ==> length == s.backings[b].length
    ensures Step(s, u, pid) && Written(s, u, b, at, data) && ViewsExcept(s, u, b)
  {
    WriteGuards(s, t, u, b, at, data, length);
    WriteIsolates(s, t, u, b, pid);
  }

  lemma WriteGuards(s: State, t: State, u: State, b: nat, at: nat, data: seq<Byte>, length: nat)
    requires b in s.backings && t.backings == s.backings && Written(s, t, b, at, data)
    requires u == Retuned(t, b, length, s.backings[b].seals)
    requires s.backings[b].length <= length && SealWrite !in s.backings[b].seals
    requires SealGrow in s.backings[b].seals ==> length == s.backings[b].length
    ensures Guarded(s, u) && Written(s, u, b, at, data)
  {
    forall c: nat, i: nat
      ensures BackingByte(u, c, i) == BackingByte(t, c, i)
    {
    }
    forall c | c in s.backings && c in u.backings
      ensures SealsRespected(s, u, c)
    {
    }
  }

  lemma WriteIsolates(s: State, t: State, u: State, b: nat, pid: nat)
    requires ViewsExcept(s, t, b) && SameViews(t, u) && t.slots == s.slots == u.slots
    ensures Isolated(s, u, pid) && ViewsExcept(s, u, b)
  {
    forall pl | !(pl in s.slots && s.slots[pl].source.Shared? && s.slots[pl].source.backing == b)
      ensures View(u, pl) == View(s, pl)
    {
      assert View(u, pl) == View(t, pl);
    }
  }

  /**
   `write` on an object: exactly the bytes counted are stored, in no other backing and
   nowhere else; a write cut short by memory does not move the length.
   */
  method WriteObject(k: Kernel, pid: nat, o: nat, offset: nat, data: seq<Byte>) returns (r: Outcome, count: nat)
    requires k.Valid() && IsObject(k.m, o)
    modifies k
    ensures k.Valid() && Step(old(k.m), k.m, pid)
    ensures r != Done || data == [] ==> k.m == old(k.m) && count == 0
    ensures r == Done && data != [] ==> 0 < count <= Wanted(offset, |data|)
    ensures r == Enomem || (r == Done && count < Wanted(offset, |data|) && data != []) ==> k.starved
    ensures r != Enomem && data != [] ==>
      r == Refusal(old(k.m).backings[old(k.m).attached[ObjectRef(o)]], offset, |data|)
    ensures data != [] ==> var backing := old(k.m).backings[old(k.m).attached[ObjectRef(o)]];
      r == Done || r == Enomem <==>
        && offset < SHM_MAX_SIZE && SealWrite !in backing.seals && SealFutureWrite !in backing.seals
        && (SealGrow in backing.seals ==> offset + |data| <= backing.length || SHM_MAX_SIZE <= backing.length)
    ensures data != [] ==> var backing := old(k.m).backings[old(k.m).attached[ObjectRef(o)]];
      r == Enospc <==> offset >= SHM_MAX_SIZE && SealWrite !in backing.seals && SealFutureWrite !in backing.seals
    ensures r == Done || r == Enomem || r == Enospc || r == Eperm
    ensures r == Done ==> count == |data| || offset + count == SHM_MAX_SIZE || k.starved
    ensures r == Done ==> offset + count <= SHM_MAX_SIZE || data == []
    ensures k.m.slots == old(k.m).slots && k.m.pt == old(k.m).pt && k.m.procs == old(k.m).procs
    ensures count <= |data| && Written(old(k.m), k.m, old(k.m).attached[ObjectRef(o)], offset, data[..count])
    ensures ViewsExcept(old(k.m), k.m, old(k.m).attached[ObjectRef(o)])
    ensures count > 0 ==> var b := old(k.m).attached[ObjectRef(o)];
      && b in k.m.backings
      && k.m.backings == old(k.m).backings[b := old(k.m).backings[b].(length := k.m.backings[b].length)]
      && var length := old(k.m).backings[b].length;
         k.m.backings[b].length ==
           if (count == |data| || offset + count == SHM_MAX_SIZE) && offset + count > length then offset + count
           else length
  {
    ghost var s := k.m;
    var b := k.m.attached[ObjectRef(o)];
    Unchanged(s);
    InvisibleSteps(s, s, pid);
    NothingWritten(s, b, offset);
    if data == [] {
      return Done, 0;
    }
    var backing := k.m.backings[b];
    r := Refusal(backing, offset, |data|);
    if r != Done {
      return r, 0;
    }
    var wanted := Wanted(offset, |data|);
    count := WriteBytes(k, b, offset, data[..wanted]);
    assert data[..wanted][..count] == data[..count];
    if count == 0 {
      return Enomem, 0;
    }
    ghost var t := k.m;
    Retune(k, b, LengthAfter(backing.length, offset, count, wanted), backing.seals);
    WriteSteps(s, t, k.m, b, offset, data[..count], LengthAfter(backing.length, offset, count, wanted), pid);
  }

  /** The length moves to the end of a complete write, and not at all for a short one. */
  function LengthAfter(length: nat, offset: nat, count: nat, wanted: nat): nat {
    if count == wanted && offset + count > length then offset + count else length
  }

  /** `data` is what the backing holds at `offset`. */
  ghost predicate BytesAt(s: State, b: nat, offset: nat, data: seq<Byte>) {
    forall i :: 0 <= i < |data| ==> data[i] == BackingByte(s, b, offset + i)
  }

  lemma ReadMore(s: State, b: nat, offset: nat, data: seq<Byte>, chunk: seq<Byte>)
    requires BytesAt(s, b, offset, data) && BytesAt(s, b, offset + |data|, chunk)
    ensures BytesAt(s, b, offset, data + chunk)
  {
    forall i | |data| <= i < |data + chunk|
      ensures (data + chunk)[i] == BackingByte(s, b, offset + i)
    {
      assert chunk[i - |data|] == BackingByte(s, b, offset + |data| + (i - |data|));
    }
  }

  /** `read` on an object: the bytes up to its length, zero where nothing was written. */
  method ReadObject(k: Kernel, o: nat, offset: nat, length: nat) returns (data: seq<Byte>)
    requires k.Valid() && IsObject(k.m, o)
    ensures data == Readable(k.m, k.m.attached[ObjectRef(o)], offset, length)
    ensures |data| <= length && (data != [] ==> offset + |data| <= k.m.backings[k.m.attached[ObjectRef(o)]].length)
    ensures |data| == length || offset + |data| >= k.m.backings[k.m.attached[ObjectRef(o)]].length
    ensures BytesAt(k.m, k.m.attached[ObjectRef(o)], offset, data)
  {
    var b := k.m.attached[ObjectRef(o)];
    var size := k.m.backings[b].length;
    data := [];
    if offset >= size {
      return;
    }
    var total := if length > size - offset then size - offset else length;
    while |data| < total
      invariant |data| <= total && BytesAt(k.m, b, offset, data)
    {
      var n := ChunkEnd(offset, |data|, total) - |data|;
      var chunk := ReadChunk(k, b, offset + |data|, n);
      ReadMore(k.m, b, offset, data, chunk);
      data := data + chunk;
    }
    ReadDone(k.m, b, offset, length, data);
  }

  lemma ReadDone(s: State, b: nat, offset: nat, length: nat, data: seq<Byte>)
    requires b in s.backings && BytesAt(s, b, offset, data) && |data| == |Readable(s, b, offset, length)|
    ensures data == Readable(s, b, offset, length)
  {
  }

  method ReadChunk(k: Kernel, b: nat, at: nat, n: nat) returns (chunk: seq<Byte>)
    requires k.Valid() && at % PAGE + n <= PAGE
    ensures |chunk| == n && BytesAt(k.m, b, at, chunk)
  {
    var content := PageOf(k, b, at / PAGE);
    chunk := Part(content, at % PAGE, n);
    SliceAt(k.m, b, at, chunk);
  }

  lemma SliceAt(s: State, b: nat, at: nat, chunk: seq<Byte>)
    requires at % PAGE + |chunk| <= PAGE && chunk == Part(BackingPage(s, b, at / PAGE), at % PAGE, |chunk|)
    ensures BytesAt(s, b, at, chunk)
  {
    forall i | 0 <= i < |chunk|
      ensures chunk[i] == BackingByte(s, b, at + i)
    {
      InSamePage(at, i);
    }
  }

  method PageOf(k: Kernel, b: nat, page: nat) returns (content: Page)
    requires k.Valid()
    ensures content == BackingPage(k.m, b, page)
  {
    var c := BackingCell(b, page);
    if c !in k.m.resident {
      return ZeroPage();
    }
    FrameKnown(k.m, c);
    return k.m.frames[k.m.resident[c]];
  }

  // ---------- Truncation ----------

  /** Drops every frame of `b` from page `keep` on; no slot shows any of them. */
  method DropPagesFrom(k: Kernel, b: nat, keep: nat)
    requires k.Valid() && b in k.m.backings && AllUnseen(k.m, b, keep)
    modifies k`m
    ensures k.Valid() && SameViews(old(k.m), k.m) && PagesBelow(old(k.m), k.m, b, keep)
    ensures k.m == old(k.m).(frames := k.m.frames, refs := k.m.refs, resident := k.m.resident)
    ensures forall j: nat :: j >= keep ==> BackingPage(k.m, b, j) == ZeroPage()
  {
    ghost var s := k.m;
    Unchanged(s);
    var todo := CellsFrom(k.m.resident, b, keep);
    while todo != {}
      invariant k.Valid() && SameViews(s, k.m) && PagesBelow(s, k.m, b, keep)
      invariant k.m == s.(frames := k.m.frames, refs := k.m.refs, resident := k.m.resident)
      invariant todo == CellsFrom(k.m.resident, b, keep)
      decreases |todo|
    {
      var c :| c in todo;
      DropNext(k, s, b, keep, c);
      todo := todo - {c};
    }
    NoCells(k.m, b, keep);
  }

  method DropNext(k: Kernel, ghost s: State, b: nat, ghost keep: nat, c: Cell)
    requires k.Valid() && b in k.m.backings && AllUnseen(s, b, keep) && c in CellsFrom(k.m.resident, b, keep)
    requires SameViews(s, k.m) && PagesBelow(s, k.m, b, keep)
    requires k.m == s.(frames := k.m.frames, refs := k.m.refs, resident := k.m.resident)
    modifies k`m
    ensures k.Valid() && SameViews(s, k.m) && PagesBelow(s, k.m, b, keep)
    ensures k.m == s.(frames := k.m.frames, refs := k.m.refs, resident := k.m.resident)
    ensures CellsFrom(k.m.resident, b, keep) == CellsFrom(old(k.m).resident, b, keep) - {c}
  {
    ghost var t := k.m;
    assert Unseen(s, b, c.index);
    DropOne(k, b, c.index);
    FewerCells(t.resident, b, keep, c);
    SameViewsTwice(s, t, k.m);
    PagesBelowMore(t, k.m, b, keep, c.index);
    PagesBelowTwice(s, t, k.m, b, keep);
  }

  lemma PagesBelowMore(s: State, t: State, b: nat, keep: nat, page: nat)
    requires PagesBelow(s, t, b, page) && keep <= page
    ensures PagesBelow(s, t, b, keep)
  {
  }

  function CellsFrom(resident: Residents, b: nat, keep: nat): set<Cell> {
    set c | c in resident && c.BackingCell? && c.backing == b && c.index >= keep
  }

  lemma FewerCells(resident: Residents, b: nat, keep: nat, c: Cell)
    ensures CellsFrom(resident - {c}, b, keep) == CellsFrom(resident, b, keep) - {c}
  {
  }

  lemma NoCells(s: State, b: nat, keep: nat)
    requires CellsFrom(s.resident, b, keep) == {}
    ensures forall j: nat :: j >= keep ==> BackingPage(s, b, j) == ZeroPage()
  {
    forall j: nat | j >= keep
      ensures BackingPage(s, b, j) == ZeroPage()
    {
      assert BackingCell(b, j) !in CellsFrom(s.resident, b, keep);
    }
  }

  ghost predicate AllUnseen(s: State, b: nat, keep: nat) {
    forall j: nat :: j >= keep ==> Unseen(s, b, j)
  }

  method DropOne(k: Kernel, b: nat, page: nat)
    requires k.Valid() && BackingCell(b, page) in k.m.resident && Unseen(k.m, b, page)
    modifies k`m
    ensures k.Valid() && SameViews(old(k.m), k.m)
    ensures PagesBelow(old(k.m), k.m, b, page)
    ensures k.m ==
      old(k.m).(frames := k.m.frames, refs := k.m.refs, resident := old(k.m).resident - {BackingCell(b, page)})
  {
    ghost var s := k.m;
    UnseenReleasable(s, b, page);
    k.RefcountDec(k.m.resident[BackingCell(b, page)]);
    k.m := k.m.(resident := k.m.resident - {BackingCell(b, page)});
    DropUnseenStep(s, b, page, k.m);
  }

  /** Why `ftruncate` is refused. */
  function TruncateRefusal(backing: Backing, references: nat, length: nat): Outcome {
    if length > SHM_MAX_SIZE then Einval
    else if length < backing.length && SealShrink in backing.seals then Eperm
    else if length > backing.length && SealGrow in backing.seals then Eperm
    else if references != 1 && length < backing.length then Einval
    else Done
  }

  /** One reference means that nothing else holds the backing, and more that something does. */
  lemma OneReference(s: State, o: nat)
    requires Good(s) && IsObject(s, o) && s.attached[ObjectRef(o)] in s.shares
    ensures s.shares[s.attached[ObjectRef(o)]] == 1 <==> HoldsAlone(s, o)
  {
    var b := s.attached[ObjectRef(o)];
    var holders := Holders(s.attached, b);
    assert BackingsConserved(s.attached, s.shares, s.backings);
    assert ObjectRef(o) in holders;
    if HoldsAlone(s, o) {
      assert holders == {ObjectRef(o)};
    }
    if s.shares[b] == 1 {
      Unique(holders, ObjectRef(o));
      assert forall h :: h in s.attached && s.attached[h] == b ==> h in holders;
    }
  }

  lemma UnnamedViews(s: State, t: State, b: nat)
    requires ViewsExcept(s, t, b) && NoSlotNames(s, b)
    ensures SameViews(s, t)
  {
    forall pl
      ensures View(t, pl) == View(s, pl)
    {
      assert pl in s.slots && s.slots[pl].source.Shared? ==> s.slots[pl].source.backing != b;
    }
  }

  function Tail(length: nat): (z: seq<Byte>)
    ensures length + |z| == PageCount(length) * PAGE
    ensures |z| > 0 ==> length % PAGE + |z| <= PAGE
  {
    Zeros(PageCount(length) * PAGE - length)
  }

  lemma AbsentTail(s: State, b: nat, length: nat)
    requires BackingCell(b, length / PAGE) !in s.resident || length % PAGE == 0
    ensures Written(s, s, b, length, Tail(length))
  {
    forall i: nat | length <= i < length + |Tail(length)|
      ensures BackingByte(s, b, i) == 0
    {
      assert i / PAGE == length / PAGE;
    }
  }

  /** The rest of the page that `length` falls into is cleared. */
  method ClearTail(k: Kernel, b: nat, length: nat)
    requires k.Valid() && NoSlotNames(k.m, b)
    modifies k`m
    ensures k.Valid() && SameViews(old(k.m), k.m) && Written(old(k.m), k.m, b, length, Tail(length))
    ensures k.m == old(k.m).(frames := k.m.frames)
  {
    ghost var s := k.m;
    Unchanged(s);
    if length % PAGE != 0 && BackingCell(b, length / PAGE) in k.m.resident {
      StoreChunk(k, b, length, Tail(length));
      UnnamedViews(s, k.m, b);
    } else {
      AbsentTail(s, b, length);
    }
  }

  lemma TruncateGuards(s: State, t: State, u: State, b: nat, length: nat)
    requires b in s.backings && t.backings == s.backings && Truncated(s, t, b, length, length < s.backings[b].length)
    requires u == Retuned(t, b, length, s.backings[b].seals)
    requires SealShrink in s.backings[b].seals ==> s.backings[b].length <= length
    requires SealGrow in s.backings[b].seals ==> length <= s.backings[b].length
    ensures Guarded(s, u) && Truncated(s, u, b, length, length < s.backings[b].length)
  {
    forall c: nat, i: nat
      ensures BackingByte(u, c, i) == BackingByte(t, c, i)
    {
    }
    forall c | c in s.backings && c in u.backings
      ensures SealsRespected(s, u, c)
    {
    }
  }

  lemma TruncateSteps(s: State, t: State, u: State, pid: nat)
    requires Good(u) && Guarded(s, u) && SameViews(s, t) && SameViews(t, u) && u.slots == s.slots && u.procs == s.procs
    ensures Step(s, u, pid) && SameViews(s, u)
  {
    SameViewsTwice(s, t, u);
    SameIsolates(s, u, pid);
  }

  lemma TailUnseen(s: State, b: nat, length: nat)
    requires Good(s) && b in s.backings && (length < s.backings[b].length ==> NoSlotNames(s, b))
    ensures AllUnseen(s, b, PageCount(length))
  {
    forall j: nat | j >= PageCount(length)
      ensures Unseen(s, b, j)
    {
      if length >= s.backings[b].length {
        assert PageCount(s.backings[b].length) <= PageCount(length);
        BeyondUnseen(s, b, j);
      }
    }
  }

  /** The pages and the tail, before the length moves. */
  method CutPages(k: Kernel, b: nat, length: nat)
    requires k.Valid() && b in k.m.backings && (length < k.m.backings[b].length ==> NoSlotNames(k.m, b))
    modifies k`m
    ensures k.Valid() && SameViews(old(k.m), k.m)
    ensures Truncated(old(k.m), k.m, b, length, length < old(k.m).backings[b].length)
    ensures k.m == old(k.m).(frames := k.m.frames, refs := k.m.refs, resident := k.m.resident)
  {
    ghost var s := k.m;
    TailUnseen(s, b, length);
    Unchanged(s);
    if length < k.m.backings[b].length {
      ClearTail(k, b, length);
    }
    ghost var t := k.m;
    DropPagesFrom(k, b, PageCount(length));
    TruncatedWhole(t, k.m, b, length);
    SameViewsTwice(s, t, k.m);
    if length < s.backings[b].length {
      TruncatedTail(s, t, k.m, b, length, Tail(length));
    }
  }

  /** `ftruncate` on an object: the seals and the mappings limit it, and no process sees a change. */
  method TruncateObject(k: Kernel, pid: nat, o: nat, length: nat) returns (r: Outcome)
    requires k.Valid() && IsObject(k.m, o) && k.m.attached[ObjectRef(o)] in k.m.shares
    modifies k
    ensures k.Valid() && SameViews(old(k.m), k.m) && Step(old(k.m), k.m, pid)
    ensures var b := old(k.m).attached[ObjectRef(o)];
      r == TruncateRefusal(old(k.m).backings[b], old(k.m).shares[b], length)
    ensures var backing := old(k.m).backings[old(k.m).attached[ObjectRef(o)]];
      r == Done <==>
        && length <= SHM_MAX_SIZE
        && (length < backing.length ==> SealShrink !in backing.seals && HoldsAlone(old(k.m), o))
        && (length > backing.length ==> SealGrow !in backing.seals)
    ensures var backing := old(k.m).backings[old(k.m).attached[ObjectRef(o)]];
      r == Eperm <==>
        && length <= SHM_MAX_SIZE
        && if length < backing.length then SealShrink in backing.seals
           else length > backing.length && SealGrow in backing.seals
    ensures r == Done || r == Eperm || r == Einval
    ensures r != Done ==> k.m == old(k.m)
    ensures r == Done ==> var b := old(k.m).attached[ObjectRef(o)];
      Truncated(old(k.m), k.m, b, length, length < old(k.m).backings[b].length)
    ensures r == Done ==> var b := old(k.m).attached[ObjectRef(o)];
      k.m.backings == old(k.m).backings[b := old(k.m).backings[b].(length := length)]
  {
    ghost var s := k.m;
    var b := k.m.attached[ObjectRef(o)];
    Unchanged(s);
    InvisibleSteps(s, s, pid);
    CloseFacts(s, o);
    OneReference(s, o);
    r := TruncateRefusal(k.m.backings[b], k.m.shares[b], length);
    if r != Done {
      return;
    }
    CutPages(k, b, length);
    ghost var t := k.m;
    Retune(k, b, length, k.m.backings[b].seals);
    TruncateGuards(s, t, k.m, b, length);
    TruncateSteps(s, t, k.m, pid);
  }

  // ---------- Seals ----------

  predicate WritesTo(slot: Slot, b: nat) {
    slot.source.Shared? && slot.source.backing == b && slot.prot.write
  }

  /** A process may write to the backing at this page. */
  ghost predicate MappedWritably(s: State, pl: Place, b: nat) {
    pl in s.slots && s.slots[pl].prot.write && s.slots[pl].source.Shared? && s.slots[pl].source.backing == b
  }

  /** Whether any process maps the backing with write permission. */
  method HasWritableMapping(k: Kernel, b: nat) returns (found: bool)
    ensures found <==> !NoWritableMapping(k.m, b)
    ensures found <==> exists pl :: MappedWritably(k.m, pl, b)
  {
    var todo := k.m.slots.Keys;
    while todo != {}
      invariant forall pl :: pl in k.m.slots && WritesTo(k.m.slots[pl], b) ==> pl in todo
      invariant todo <= k.m.slots.Keys
      decreases todo
    {
      var pl :| pl in todo;
      if WritesTo(k.m.slots[pl], b) {
        assert MappedWritably(k.m, pl, b);
        return true;
      }
      todo := todo - {pl};
    }
    return false;
  }

  lemma SealGuards(s: State, t: State, b: nat, seals: set<Seal>)
    requires b in s.backings && t == Retuned(s, b, s.backings[b].length, s.backings[b].seals + seals)
    ensures Guarded(s, t) && forall c: nat, i: nat :: BackingByte(t, c, i) == BackingByte(s, c, i)
  {
    forall c: nat, i: nat
      ensures BackingByte(t, c, i) == BackingByte(s, c, i)
    {
    }
    forall c | c in s.backings && c in t.backings
      ensures SealsRespected(s, t, c)
    {
    }
  }

  /** `F_ADD_SEALS`: only a sealable memfd, not once sealed shut, and not against a writable mapping. */
  method AddSeals(k: Kernel, pid: nat, o: nat, seals: set<Seal>) returns (r: Outcome)
    requires k.Valid() && IsObject(k.m, o)
    modifies k
    ensures k.Valid() && SameViews(old(k.m), k.m) && Step(old(k.m), k.m, pid)
    ensures r != Done ==> k.m == old(k.m)
    ensures var b := old(k.m).attached[ObjectRef(o)]; var backing := old(k.m).backings[b];
      r == if !backing.memfd then Einval else if !backing.sealable || SealSeal in backing.seals then Eperm
           else if SealWrite in seals && !NoWritableMapping(old(k.m), b) then Ebusy else Done
    ensures var b := old(k.m).attached[ObjectRef(o)];
      && (r == Ebusy ==> SealWrite in seals && exists pl :: MappedWritably(old(k.m), pl, b))
      && (r == Done && SealWrite in seals ==> forall pl :: !MappedWritably(old(k.m), pl, b))
    ensures r == Done ==> var b := old(k.m).attached[ObjectRef(o)];
      k.m == Retuned(old(k.m), b, old(k.m).backings[b].length, old(k.m).backings[b].seals + seals)
  {
    ghost var s := k.m;
    var b := k.m.attached[ObjectRef(o)];
    Unchanged(s);
    InvisibleSteps(s, s, pid);
    var backing := k.m.backings[b];
    if !backing.memfd {
      return Einval;
    }
    if !backing.sealable || SealSeal in backing.seals {
      return Eperm;
    }
    if SealWrite in seals {
      var busy := HasWritableMapping(k, b);
      if busy {
        return Ebusy;
      }
    }
    Retune(k, b, backing.length, backing.seals + seals);
    SealGuards(s, k.m, b, seals);
    SameIsolates(s, k.m, pid);
    return Done;
  }
}

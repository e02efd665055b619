/**
 Shared-memory objects and memfds: creating and releasing them, reading, writing and
 truncating them through descriptors, and sealing them.
 */
module Sharing {
  import opened Bytes
  import opened Ledger
  import opened Machine
  import opened Steps
  import opened Moves
  import opened Slotting
  import opened Changes
  import opened Faults
  import opened Teardown

  /** Byte `i` of a shared backing; what was never written is zero. */
  ghost function BackingByte(s: State, b: nat, i: nat): Byte {
    BackingPage(s, b, i / PAGE)[i % PAGE]
  }

  /** Places that do not show a page of `b` look the same. */
  ghost predicate ViewsExcept(s: State, t: State, b: nat) {
    forall pl :: !(pl in s.slots && s.slots[pl].source.Shared? && s.slots[pl].source.backing == b) ==>
      View(t, pl) == View(s, pl)
  }

  // ---------- A new object ----------

  function Created(s: State, o: nat, b: nat, backing: Backing): State {
    s.(backings := s.backings[b := backing], shares := s.shares[b := 1], attached := s.attached[ObjectRef(o) := b])
  }

  lemma CreateStep(s: State, o: nat, b: nat, backing: Backing)
    requires Good(s) && ObjectRef(o) !in s.attached && b !in s.backings && (backing.seals != {} ==> backing.memfd)
    ensures Good(Created(s, o, b, backing)) && SameViews(s, Created(s, o, b, backing))
  {
    var t := Created(s, o, b, backing);
    Put(s.attached, s.shares, ObjectRef(o), b);
    CreateSlots(s, o, b, backing);
    SourcesAreKnown(s.slots, s.backings, s.procs);
    CreateViews(s, o, b, backing);
  }

  lemma CreateSlots(s: State, o: nat, b: nat, backing: Backing)
    requires SlotsOk(s.slots, s.backings, s.procs) && SealsHold(s.slots, s.backings) && b !in s.backings
    requires CellsOk(s.resident, s.slots, s.backings) && AttachedAgree(s.attached, s.slots)
    ensures SlotsOk(s.slots, s.backings[b := backing], s.procs) && SealsHold(s.slots, s.backings[b := backing])
    ensures CellsOk(s.resident, s.slots, s.backings[b := backing])
    ensures AttachedAgree(s.attached[ObjectRef(o) := b], s.slots)
  {
    forall pl | pl in s.slots
      ensures SlotOk(pl, s.slots[pl], s.backings[b := backing], s.procs)
      ensures s.slots[pl].source.Shared? ==> s.slots[pl].source.backing != b
    {
      assert SlotOk(pl, s.slots[pl], s.backings, s.procs);
    }
    forall c | c in s.resident
      ensures CellOk(c, s.slots, s.backings[b := backing])
    {
      assert CellOk(c, s.slots, s.backings);
    }
  }

  lemma CreateViews(s: State, o: nat, b: nat, backing: Backing)
    requires SourcesKnown(s.slots, s.backings) && b !in s.backings
    ensures SameViews(s, Created(s, o, b, backing))
  {
    forall pl
      ensures View(Created(s, o, b, backing), pl) == View(s, pl)
    {
      PlaceKept(s, Created(s, o, b, backing), pl);
    }
  }

  // ---------- An object goes away ----------

  /** An object drops its reference; the last one frees the backing. */
  function Closed(s: State, o: nat): State
    requires ObjectRef(o) in s.attached && s.attached[ObjectRef(o)] in s.shares
    requires s.shares[s.attached[ObjectRef(o)]] > 0
  {
    var b := s.attached[ObjectRef(o)];
    s.(attached := s.attached - {ObjectRef(o)}, shares := Lowered(s.shares, b),
      backings := Dropped(s.backings, s.shares, b))
  }

  ghost predicate NoSlotNames(s: State, b: nat) {
    forall q :: q in s.slots && !s.slots[q].source.Anonymous? ==> s.slots[q].source.backing != b
  }

  lemma CloseFacts(s: State, o: nat)
    requires Good(s) && ObjectRef(o) in s.attached
    ensures s.attached[ObjectRef(o)] in s.shares && s.shares[s.attached[ObjectRef(o)]] > 0
    ensures s.shares[s.attached[ObjectRef(o)]] == 1 ==> NoSlotNames(s, s.attached[ObjectRef(o)])
  {
    LastHolder(s.attached, s.shares, s.slots, ObjectRef(o));
  }

  lemma CloseStep(s: State, o: nat)
    requires Good(s) && ObjectRef(o) in s.attached
    requires s.attached[ObjectRef(o)] in s.shares && s.shares[s.attached[ObjectRef(o)]] > 0
    requires s.shares[s.attached[ObjectRef(o)]] == 1 ==>
      NoSlotNames(s, s.attached[ObjectRef(o)]) && forall k :: BackingCell(s.attached[ObjectRef(o)], k) !in s.resident
    ensures Good(Closed(s, o)) && SameViews(s, Closed(s, o))
  {
    var b := s.attached[ObjectRef(o)];
    DetachConserves(s.attached, s.shares, s.backings, ObjectRef(o));
    CloseSlots(s, b);
    CloseAgree(s.attached, s.slots, o);
    SourcesAreKnown(s.slots, s.backings, s.procs);
    CloseViews(s, o);
  }

  lemma CloseAgree(attached: map<Attachment, nat>, slots: Slots, o: nat)
    requires AttachedAgree(attached, slots)
    ensures AttachedAgree(attached - {ObjectRef(o)}, slots)
  {
  }

  lemma CloseSlots(s: State, b: nat)
    requires SlotsOk(s.slots, s.backings, s.procs) && SealsHold(s.slots, s.backings) && MemfdSeals(s.backings)
    requires CellsOk(s.resident, s.slots, s.backings) && b in s.shares
    requires s.shares[b] == 1 ==> NoSlotNames(s, b) && forall k :: BackingCell(b, k) !in s.resident
    ensures SlotsOk(s.slots, Dropped(s.backings, s.shares, b), s.procs)
    ensures SealsHold(s.slots, Dropped(s.backings, s.shares, b)) && MemfdSeals(Dropped(s.backings, s.shares, b))
    ensures CellsOk(s.resident, s.slots, Dropped(s.backings, s.shares, b))
  {
    forall pl | pl in s.slots
      ensures SlotOk(pl, s.slots[pl], Dropped(s.backings, s.shares, b), s.procs)
    {
      assert SlotOk(pl, s.slots[pl], s.backings, s.procs);
    }
    forall c | c in s.resident
      ensures CellOk(c, s.slots, Dropped(s.backings, s.shares, b))
    {
      assert CellOk(c, s.slots, s.backings);
    }
  }

  lemma CloseViews(s: State, o: nat)
    requires SourcesKnown(s.slots, s.backings) && ObjectRef(o) in s.attached
    requires s.attached[ObjectRef(o)] in s.shares && s.shares[s.attached[ObjectRef(o)]] > 0
    requires s.shares[s.attached[ObjectRef(o)]] == 1 ==> NoSlotNames(s, s.attached[ObjectRef(o)])
    ensures SameViews(s, Closed(s, o))
  {
    forall pl
      ensures View(Closed(s, o), pl) == View(s, pl)
    {
      PlaceKept(s, Closed(s, o), pl);
    }
  }

  // ---------- Writing a page of a backing ----------

  lemma WriteStep(s: State, b: nat, k: nat, content: Page, t: State)
    requires Good(s) && BackingCell(b, k) in s.resident
    requires t == Stored(s, s.resident[BackingCell(b, k)], content)
    ensures Good(t) && ViewsExcept(s, t, b)
    ensures BackingPage(t, b, k) == content
    ensures forall b': nat, k': nat :: b' != b || k' != k ==> BackingPage(t, b', k') == BackingPage(s, b', k')
  {
    var f := s.resident[BackingCell(b, k)];
    FrameKnown(s, BackingCell(b, k));
    WriteNotCached(s.resident, s.slots, b, k);
    StoreInv(s, f, content);
    WritePages(s, b, k, content, t);
    WriteViews(s, b, k, content, t);
  }

  lemma WriteNotCached(resident: Residents, slots: Slots, b: nat, k: nat)
    requires Separated(resident, slots) && BackingCell(b, k) in resident
    ensures forall c :: c in resident && c.CacheCell? ==> resident[c] != resident[BackingCell(b, k)]
  {
    forall c | c in resident && c.CacheCell?
      ensures resident[c] != resident[BackingCell(b, k)]
    {
      assert Key(slots, c) != Key(slots, BackingCell(b, k));
    }
  }

  lemma WritePages(s: State, b: nat, k: nat, content: Page, t: State)
    requires Separated(s.resident, s.slots) && BackingCell(b, k) in s.resident
    requires s.resident[BackingCell(b, k)] in s.frames
    requires t == Stored(s, s.resident[BackingCell(b, k)], content)
    ensures BackingPage(t, b, k) == content
    ensures forall b': nat, k': nat :: b' != b || k' != k ==> BackingPage(t, b', k') == BackingPage(s, b', k')
  {
    forall b': nat, k': nat | b' != b || k' != k
      ensures BackingPage(t, b', k') == BackingPage(s, b', k')
    {
      assert Key(s.slots, BackingCell(b', k')) != Key(s.slots, BackingCell(b, k));
    }
  }

  lemma WriteViews(s: State, b: nat, k: nat, content: Page, t: State)
    requires Separated(s.resident, s.slots) && SharedAgree(s.resident, s.slots)
    requires CellsOk(s.resident, s.slots, s.backings)
    requires BackingCell(b, k) in s.resident && s.resident[BackingCell(b, k)] in s.frames
    requires t == Stored(s, s.resident[BackingCell(b, k)], content)
    ensures ViewsExcept(s, t, b)
  {
    var f := s.resident[BackingCell(b, k)];
    forall pl | !(pl in s.slots && s.slots[pl].source.Shared? && s.slots[pl].source.backing == b)
      ensures View(t, pl) == View(s, pl)
    {
      LivesElsewhere(s, b, k, pl);
      StoreViews(s, f, content, pl);
    }
  }

  lemma LivesElsewhere(s: State, b: nat, k: nat, pl: Place)
    requires Separated(s.resident, s.slots) && CellsOk(s.resident, s.slots, s.backings)
    requires BackingCell(b, k) in s.resident
    requires !(pl in s.slots && s.slots[pl].source.Shared? && s.slots[pl].source.backing == b)
    ensures !LivesIn(s, pl, s.resident[BackingCell(b, k)])
  {
    var c, d := ByteCell(s, pl), BackingCell(b, k);
    assert c in s.resident && s.resident[c] == s.resident[d] ==> Key(s.slots, c) == Key(s.slots, d);
  }

  // ---------- Dropping a page that no slot shows ----------

  ghost predicate Unseen(s: State, b: nat, k: nat) {
    forall q :: q in s.slots && s.slots[q].source.Shared? && s.slots[q].source.backing == b ==>
      s.slots[q].source.index != k
  }

  lemma DropUnseenStep(s: State, b: nat, k: nat, t: State)
    requires Good(s) && BackingCell(b, k) in s.resident && Unseen(s, b, k) && CanRelease(s, BackingCell(b, k))
    requires t == Released(s, BackingCell(b, k))
    ensures Good(t) && SameViews(s, t)
    ensures BackingPage(t, b, k) == ZeroPage()
    ensures forall b': nat, k': nat :: b' != b || k' != k ==> BackingPage(t, b', k') == BackingPage(s, b', k')
  {
    ReleaseInv(s, BackingCell(b, k));
    UncacheEntries(s, BackingCell(b, k));
    DropUnseenViews(s, b, k, t);
  }

  lemma DropUnseenViews(s: State, b: nat, k: nat, t: State)
    requires FramesConserved(s.resident, s.refs, s.frames) && Unseen(s, b, k) && CanRelease(s, BackingCell(b, k))
    requires t == Released(s, BackingCell(b, k))
    ensures SameViews(s, t)
    ensures BackingPage(t, b, k) == ZeroPage()
    ensures forall b': nat, k': nat :: b' != b || k' != k ==> BackingPage(t, b', k') == BackingPage(s, b', k')
  {
    ReleaseHeld(s, BackingCell(b, k));
    forall b': nat, k': nat | b' != b || k' != k
      ensures BackingPage(t, b', k') == BackingPage(s, b', k')
    {
      assert Held(t.frames, t.resident, BackingCell(b', k')) == Held(s.frames, s.resident, BackingCell(b', k'));
    }
    forall q
      ensures View(t, q) == View(s, q)
    {
      if q in s.slots {
        assert SourcePage(t, s.slots[q].source) == SourcePage(s, s.slots[q].source);
      }
      ViewKept(s, t, q);
    }
  }

  lemma UnseenReleasable(s: State, b: nat, k: nat)
    requires Good(s) && BackingCell(b, k) in s.resident && Unseen(s, b, k)
    ensures CanRelease(s, BackingCell(b, k))
  {
    FrameKnown(s, BackingCell(b, k));
    UnseenAlone(s, b, k);
  }

  lemma UnseenAlone(s: State, b: nat, k: nat)
    requires Unseen(s, b, k)
    ensures forall pl :: SlotCell(pl) in s.resident ==> Key(s.slots, SlotCell(pl)) != Key(s.slots, BackingCell(b, k))
  {
  }

  /** Pages from the length on are shown by no slot. */
  lemma BeyondUnseen(s: State, b: nat, k: nat)
    requires Good(s) && b in s.backings && PageCount(s.backings[b].length) <= k
    ensures Unseen(s, b, k)
  {
    forall q | q in s.slots && s.slots[q].source.Shared? && s.slots[q].source.backing == b
      ensures s.slots[q].source.index != k
    {
      assert SlotOk(q, s.slots[q], s.backings, s.procs);
    }
  }

  // ---------- Bytes of a backing ----------

  /** `t` is `s` with `data` written at `at` in `b`: nothing else in any backing differs. */
  ghost predicate Written(s: State, t: State, b: nat, at: nat, data: seq<Byte>) {
    forall c: nat, i: nat ::
      BackingByte(t, c, i) == if c == b && at <= i < at + |data| then data[i - at] else BackingByte(s, c, i)
  }

  lemma ChunkWritten(s: State, t: State, b: nat, at: nat, data: seq<Byte>)
    requires at % PAGE + |data| <= PAGE
    requires BackingPage(t, b, at / PAGE) == Patch(BackingPage(s, b, at / PAGE), at % PAGE, data)
    requires forall c: nat, k: nat :: c != b || k != at / PAGE ==> BackingPage(t, c, k) == BackingPage(s, c, k)
    ensures Written(s, t, b, at, data)
  {
    forall c: nat, i: nat
      ensures BackingByte(t, c, i) == if c == b && at <= i < at + |data| then data[i - at] else BackingByte(s, c, i)
    {
      if c == b && i / PAGE == at / PAGE {
        assert i % PAGE - at % PAGE == i - at;
      } else {
        assert BackingPage(t, c, i / PAGE) == BackingPage(s, c, i / PAGE);
      }
    }
  }

  /** As `Written`, for the first `n` bytes of the data. */
  ghost predicate WrittenSome(s: State, t: State, b: nat, at: nat, data: seq<Byte>, n: nat)
    requires n <= |data|
  {
    forall c: nat, i: nat ::
      BackingByte(t, c, i) == if c == b && at <= i < at + n then data[i - at] else BackingByte(s, c, i)
  }

  lemma ChunkFollows(s: State, t: State, u: State, b: nat, at: nat, data: seq<Byte>, n: nat, chunk: seq<Byte>)
    requires n + |chunk| <= |data| && chunk == data[n..n + |chunk|]
    requires WrittenSome(s, t, b, at, data, n) && Written(t, u, b, at + n, chunk)
    requires ViewsExcept(s, t, b) && ViewsExcept(t, u, b) && t.slots == s.slots
    ensures ViewsExcept(s, u, b) && WrittenSome(s, u, b, at, data, n + |chunk|)
  {
    ViewsExceptTwice(s, t, u, b);
    forall c: nat, i: nat
      ensures BackingByte(u, c, i) == if c == b && at <= i < at + n + |chunk| then data[i - at]
        else BackingByte(s, c, i)
    {
      assert BackingByte(u, c, i) == if c == b && at + n <= i < at + n + |chunk| then chunk[i - at - n]
        else BackingByte(t, c, i);
      assert BackingByte(t, c, i) == if c == b && at <= i < at + n then data[i - at] else BackingByte(s, c, i);
    }
  }

  lemma NothingWritten(s: State, b: nat, at: nat)
    ensures Written(s, s, b, at, [])
  {
  }

  lemma WrittenPrefix(s: State, t: State, b: nat, at: nat, data: seq<Byte>, n: nat)
    requires n <= |data| && WrittenSome(s, t, b, at, data, n)
    ensures Written(s, t, b, at, data[..n])
  {
    forall c: nat, i: nat
      ensures BackingByte(t, c, i) == if c == b && at <= i < at + n then data[..n][i - at] else BackingByte(s, c, i)
    {
      assert BackingByte(t, c, i) == if c == b && at <= i < at + n then data[i - at] else BackingByte(s, c, i);
    }
  }

  lemma ViewsExceptTwice(s: State, t: State, u: State, b: nat)
    requires ViewsExcept(s, t, b) && ViewsExcept(t, u, b) && t.slots == s.slots
    ensures ViewsExcept(s, u, b)
  {
    forall pl | !(pl in s.slots && s.slots[pl].source.Shared? && s.slots[pl].source.backing == b)
      ensures View(u, pl) == View(s, pl)
    {
      assert View(t, pl) == View(s, pl);
    }
  }

  /** What a read of up to `length` bytes at `at` returns: the bytes up to the object's length. */
  ghost function Readable(s: State, b: nat, at: nat, length: nat): seq<Byte>
    requires b in s.backings
  {
    var n := if at >= s.backings[b].length then 0
             else if length > s.backings[b].length - at then s.backings[b].length - at else length;
    seq<Byte>(n, i requires 0 <= i < n => BackingByte(s, b, at + i))
  }

  /** What was written is read back exactly when it lies within the length the write left behind. */
  lemma ReadBack(s: State, t: State, b: nat, at: nat, data: seq<Byte>)
    requires b in t.backings && Written(s, t, b, at, data)
    ensures Readable(t, b, at, |data|) == data <==> data == [] || at + |data| <= t.backings[b].length
  {
    if data != [] && at + |data| <= t.backings[b].length {
      var r := Readable(t, b, at, |data|);
      forall i | 0 <= i < |data|
        ensures r[i] == data[i]
      {
        assert BackingByte(t, b, at + i) == data[at + i - at];
      }
    }
  }

  /**
   An empty object, into which one page of a longer write has gone before memory ran out: nothing
   of it can be read, until the object grows over it (`GrownShows`).
   */
  lemma ShortWriteUnread(s: State, t: State, ones: Page)
    requires ones == seq(PAGE, _ => 1)
    requires s == State(map[], map[], map[], map[], map[], {}, map[1 := Backing(true, true, false, 0, true, {}, [])],
                        map[1 := 1], map[ObjectRef(0) := 1], map[])
    requires t == s.(frames := map[1 := ones], refs := map[1 := 1], resident := map[BackingCell(1, 0) := 1])
    ensures Good(s) && Good(t) && Written(s, t, 1, 0, ones) && Readable(t, 1, 0, PAGE) == []
  {
    assert Holders(s.attached, 1) == {ObjectRef(0)};
    assert Holders(t.resident, 1) == {BackingCell(1, 0)};
    assert BackingPage(t, 1, 0) == Patch(BackingPage(s, 1, 0), 0, ones);
    ChunkWritten(s, t, 1, 0, ones);
  }

  lemma GrownShows(t: State, b: nat, page: Page)
    requires b in t.backings && BackingPage(t, b, 0) == page
    ensures Readable(Retuned(t, b, PAGE, t.backings[b].seals), b, 0, PAGE) == page
  {
    var u := Retuned(t, b, PAGE, t.backings[b].seals);
    var r := Readable(u, b, 0, PAGE);
    forall i | 0 <= i < PAGE
      ensures r[i] == page[i]
    {
      assert BackingByte(u, b, i) == page[i];
    }
  }

  // ---------- Truncation ----------

  /** Only pages of `b` from `keep` on differ. */
  ghost predicate PagesBelow(s: State, t: State, b: nat, keep: nat) {
    forall c: nat, k: nat :: c != b || k < keep ==> BackingPage(t, c, k) == BackingPage(s, c, k)
  }

  lemma PagesBelowTwice(s: State, t: State, u: State, b: nat, keep: nat)
    requires PagesBelow(s, t, b, keep) && PagesBelow(t, u, b, keep)
    ensures PagesBelow(s, u, b, keep)
  {
    forall c: nat, k: nat | c != b || k < keep
      ensures BackingPage(u, c, k) == BackingPage(s, c, k)
    {
      assert BackingPage(t, c, k) == BackingPage(s, c, k);
    }
  }

  /**
   Truncating to `length`: bytes below it stay, whole pages above it become zero, and the
   rest of the last page is cleared only when the object shrinks.
   */
  ghost predicate Truncated(s: State, t: State, b: nat, length: nat, shrinks: bool) {
    && (forall c: nat, i: nat :: c != b || i < length ==> BackingByte(t, c, i) == BackingByte(s, c, i))
    && (forall i: nat :: i >= PageCount(length) * PAGE || (shrinks && i >= length) ==> BackingByte(t, b, i) == 0)
    && (forall i: nat :: !shrinks && i < PageCount(length) * PAGE ==> BackingByte(t, b, i) == BackingByte(s, b, i))
  }

  lemma TruncatedWhole(s: State, t: State, b: nat, length: nat)
    requires PagesBelow(s, t, b, PageCount(length))
    requires forall k: nat :: k >= PageCount(length) ==> BackingPage(t, b, k) == ZeroPage()
    ensures Truncated(s, t, b, length, false)
  {
    forall c: nat, i: nat | c != b || i < PageCount(length) * PAGE
      ensures BackingByte(t, c, i) == BackingByte(s, c, i)
    {
      assert c != b || i / PAGE < PageCount(length);
    }
    forall i: nat | i >= PageCount(length) * PAGE
      ensures BackingByte(t, b, i) == 0
    {
      assert i / PAGE >= PageCount(length);
    }
  }

  /** The same after the tail of the last page has been cleared. */
  lemma TruncatedTail(s: State, t: State, u: State, b: nat, length: nat, tail: seq<Byte>)
    requires length + |tail| == PageCount(length) * PAGE && forall i :: 0 <= i < |tail| ==> tail[i] == 0
    requires Written(s, t, b, length, tail) && Truncated(t, u, b, length, false)
    ensures Truncated(s, u, b, length, true)
  {
    forall i: nat | i >= length
      ensures BackingByte(u, b, i) == 0
    {
      if i < PageCount(length) * PAGE {
        assert BackingByte(u, b, i) == BackingByte(t, b, i);
        assert BackingByte(t, b, i) == tail[i - length];
      }
    }
    forall c: nat, i: nat | c != b || i < length
      ensures BackingByte(u, c, i) == BackingByte(s, c, i)
    {
      assert BackingByte(t, c, i) == BackingByte(s, c, i);
    }
  }
}

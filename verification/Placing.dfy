/**
 A run of new mapping slots, page by page: what `mmap` reserves once it has chosen an
 address. The slots have no frames and lie over nothing, over a snapshot, or over
 consecutive pages of a shared backing.
 */
module Placing {
  import opened Bytes
  import opened Machine
  import opened Steps
  import opened Moves
  import opened Slotting
  import opened Changes
  import opened Faults
  import opened Teardown
  import opened Reserving

  /** The source of page `i` of a mapping that starts with `source`. */
  function SourceAt(source: Source, i: nat): Source {
    match source
    case Anonymous => Anonymous
    case Snapshot(b, offset) => Snapshot(b, offset + i * PAGE)
    case Shared(b, index) => Shared(b, index + i)
  }

  function SlotAt(prot: Prot, source: Source, i: nat): Slot {
    Slot(Region.Mapping, prot, false, SourceAt(source, i))
  }

  function PlaceAt(pid: nat, base: nat, i: nat): Place {
    Place(pid, base + i * PAGE)
  }

  /** The places of pages 0 to `n`. */
  ghost function Pages(pid: nat, base: nat, n: nat): set<Place> {
    set i: nat | i < n :: PlaceAt(pid, base, i)
  }

  lemma PagesMore(pid: nat, base: nat, n: nat)
    ensures Pages(pid, base, n + 1) == Pages(pid, base, n) + {PlaceAt(pid, base, n)}
  {
  }

  /** `slots` with the slots of pages 0 to `n` added. */
  ghost function Extended(slots: Slots, pid: nat, base: nat, n: nat, prot: Prot, source: Source): Slots {
    if n == 0 then slots
    else Extended(slots, pid, base, n - 1, prot, source)[PlaceAt(pid, base, n - 1) := SlotAt(prot, source, n - 1)]
  }

  lemma PagesAt(pid: nat, base: nat, n: nat, i: nat)
    ensures PlaceAt(pid, base, i) in Pages(pid, base, n) <==> i < n
  {
    forall j: nat | j != i
      ensures PlaceAt(pid, base, j) != PlaceAt(pid, base, i)
    {
      assert j * PAGE != i * PAGE;
    }
  }

  lemma PagesIn(pid: nat, base: nat, n: nat, q: Place)
    requires q in Pages(pid, base, n)
    ensures q.pid == pid && base <= q.page < base + n * PAGE
  {
  }

  lemma {:induction false} ExtendedKeys(slots: Slots, pid: nat, base: nat, n: nat, prot: Prot, source: Source)
    ensures Extended(slots, pid, base, n, prot, source).Keys == slots.Keys + Pages(pid, base, n)
    ensures forall q :: q in slots && q !in Pages(pid, base, n) ==>
      Extended(slots, pid, base, n, prot, source)[q] == slots[q]
  {
    if n > 0 {
      ExtendedKeys(slots, pid, base, n - 1, prot, source);
      PagesMore(pid, base, n - 1);
    }
  }

  lemma {:induction false} ExtendedAt(slots: Slots, pid: nat, base: nat, n: nat, prot: Prot, source: Source, i: nat)
    requires i < n
    ensures PlaceAt(pid, base, i) in Extended(slots, pid, base, n, prot, source)
    ensures Extended(slots, pid, base, n, prot, source)[PlaceAt(pid, base, i)] == SlotAt(prot, source, i)
  {
    if i < n - 1 {
      ExtendedAt(slots, pid, base, n - 1, prot, source, i);
    }
  }

  /** Where `mmap` may put `count` pages. */
  ghost predicate RangeFree(s: State, pid: nat, base: nat, count: nat) {
    && base % PAGE == 0 && MMAP_START <= base && base + count * PAGE <= MMAP_END
    && forall i: nat :: i < count ==> PlaceAt(pid, base, i) !in s.slots
  }

  /** Whether the source can back `count` pages with this protection. */
  ghost predicate SourceFits(backings: Backings, count: nat, prot: Prot, source: Source) {
    source.Anonymous? ||
    (&& source.backing in backings && backings[source.backing].shared == source.Shared?
     && (source.Shared? ==> source.index + count <= PageCount(backings[source.backing].length))
     && (source.Shared? && SealWrite in backings[source.backing].seals ==> !prot.write))
  }

  lemma PageFits(s: State, t: State, pid: nat, base: nat, count: nat, n: nat, prot: Prot, source: Source,
      made: Option<Backing>)
    requires RangeFree(s, pid, base, count) && n < count && pid in t.procs
    requires t.slots == Extended(s.slots, pid, base, n, prot, source)
    requires made.Some? ==> !source.Anonymous? && source.backing !in t.backings && made.value.seals == {}
    requires SourceFits(BackingsWith(t.backings, source, made), count, prot, source)
    ensures CanSlot(t, PlaceAt(pid, base, n), SlotAt(prot, source, n), made)
  {
    ExtendedKeys(s.slots, pid, base, n, prot, source);
    PagesAt(pid, base, n, n);
    assert base + n * PAGE < base + count * PAGE;
    assert (base + n * PAGE) % PAGE == 0;
  }

  ghost function BackingsWith(backings: Backings, source: Source, made: Option<Backing>): Backings {
    if made.None? || source.Anonymous? then backings else backings[source.backing := made.value]
  }

  ghost predicate CanReserve(s: State, pid: nat, base: nat, count: nat, prot: Prot, source: Source,
      made: Option<Backing>) {
    && pid in s.procs && RangeFree(s, pid, base, count)
    && (made.Some? ==> !source.Anonymous? && source.backing !in s.backings && made.value.seals == {})
    && SourceFits(BackingsWith(s.backings, source, made), count, prot, source)
  }

  /** The state after `n` pages; the first page brings a new backing into being. */
  ghost predicate Progress(s: State, t: State, pid: nat, base: nat, n: nat, prot: Prot, source: Source,
      made: Option<Backing>) {
    && Good(t) && ViewsOutside(s, t, Pages(pid, base, n))
    && t == s.(slots := Extended(s.slots, pid, base, n, prot, source), attached := t.attached, shares := t.shares,
               backings := BackingsWith(s.backings, source, if n == 0 then None else made))
  }

  lemma ProgressNone(s: State, pid: nat, base: nat, prot: Prot, source: Source, made: Option<Backing>)
    requires Good(s)
    ensures Progress(s, s, pid, base, 0, prot, source, made)
  {
  }

  lemma ProgressMore(s: State, t: State, u: State, pid: nat, base: nat, count: nat, n: nat, prot: Prot, source: Source,
      made: Option<Backing>, brought: Option<Backing>)
    requires CanReserve(s, pid, base, count, prot, source, made) && n < count
    requires Progress(s, t, pid, base, n, prot, source, made) && brought == if n == 0 then made else None
    requires u == Slotted(t, PlaceAt(pid, base, n), SlotAt(prot, source, n), brought)
    ensures Progress(s, u, pid, base, n + 1, prot, source, made)
  {
    PageFits(s, t, pid, base, count, n, prot, source, brought);
    SlotStep(t, PlaceAt(pid, base, n), SlotAt(prot, source, n), brought, u);
    PagesMore(pid, base, n);
    ViewsOutsideMore(s, t, u, Pages(pid, base, n), PlaceAt(pid, base, n));
  }

  /** One reference to the backing per page, and no other reference moves. */
  ghost predicate Gained(s: State, t: State, pid: nat, base: nat, n: nat, source: Source) {
    if source.Anonymous? then t.attached == s.attached && t.shares == s.shares
    else
      && SharesGained(s.shares, t.shares, source.backing, n)
      && (forall i: nat {:trigger RefAt(t.attached, pid, base, i, source.backing)} :: i < n ==>
        RefAt(t.attached, pid, base, i, source.backing))
      && (forall r: Attachment {:trigger SameRef(s.attached, t.attached, r)} ::
          r.ObjectRef? || r.place !in Pages(pid, base, n) ==> SameRef(s.attached, t.attached, r))
  }

  ghost predicate RefAt(attached: map<Attachment, nat>, pid: nat, base: nat, i: nat, b: nat) {
    SlotRef(PlaceAt(pid, base, i)) in attached && attached[SlotRef(PlaceAt(pid, base, i))] == b
  }

  ghost predicate SharesGained(shares: map<nat, nat>, shares': map<nat, nat>, b: nat, n: nat) {
    && (forall c :: c != b ==> (c in shares' <==> c in shares) && (c in shares ==> shares'[c] == shares[c]))
    && (if n == 0 then shares' == shares else b in shares' && shares'[b] == (if b in shares then shares[b] else 0) + n)
  }

  ghost predicate SameRef(attached: map<Attachment, nat>, attached': map<Attachment, nat>, r: Attachment) {
    (r in attached' <==> r in attached) && (r in attached ==> attached'[r] == attached[r])
  }

  lemma GainedNone(s: State, pid: nat, base: nat, source: Source)
    ensures Gained(s, s, pid, base, 0, source)
  {
  }

  lemma GainedMore(s: State, t: State, u: State, pid: nat, base: nat, n: nat, prot: Prot, source: Source,
      brought: Option<Backing>)
    requires Gained(s, t, pid, base, n, source)
    requires u == Slotted(t, PlaceAt(pid, base, n), SlotAt(prot, source, n), brought)
    ensures Gained(s, u, pid, base, n + 1, source)
  {
    PagesMore(pid, base, n);
    forall i: nat | i < n
      ensures PlaceAt(pid, base, i) != PlaceAt(pid, base, n)
    {
      assert i * PAGE != n * PAGE;
    }
    if !source.Anonymous? {
      forall i: nat | i < n + 1
        ensures RefAt(u.attached, pid, base, i, source.backing)
      {
        assert i < n ==> RefAt(t.attached, pid, base, i, source.backing);
      }
      forall r: Attachment | r.ObjectRef? || r.place !in Pages(pid, base, n + 1)
        ensures SameRef(s.attached, u.attached, r)
      {
        assert SameRef(s.attached, t.attached, r);
      }
    }
  }

  /** The first `i` of `count` pages have been reserved. */
  ghost predicate ReservedSome(s: State, t: State, pid: nat, base: nat, count: nat, i: nat, prot: Prot, source: Source,
      made: Option<Backing>) {
    && CanReserve(s, pid, base, count, prot, source, made) && i <= count
    && Progress(s, t, pid, base, i, prot, source, made) && Gained(s, t, pid, base, i, source)
  }

  lemma ReservedNone(s: State, pid: nat, base: nat, count: nat, prot: Prot, source: Source, made: Option<Backing>)
    requires Good(s) && CanReserve(s, pid, base, count, prot, source, made)
    ensures ReservedSome(s, s, pid, base, count, 0, prot, source, made)
  {
    ProgressNone(s, pid, base, prot, source, made);
    GainedNone(s, pid, base, source);
  }

  /** Page `i` has been filled; the first one brings a new backing into being. */
  ghost predicate SlotLaid(t: State, u: State, pid: nat, base: nat, i: nat, prot: Prot, source: Source,
      made: Option<Backing>) {
    u == Slotted(t, PlaceAt(pid, base, i), SlotAt(prot, source, i), if i == 0 then made else None)
  }

  lemma ReservedMore(s: State, t: State, u: State, pid: nat, base: nat, count: nat, i: nat, prot: Prot, source: Source,
      made: Option<Backing>)
    requires ReservedSome(s, t, pid, base, count, i, prot, source, made) && i < count
    requires SlotLaid(t, u, pid, base, i, prot, source, made)
    ensures ReservedSome(s, u, pid, base, count, i + 1, prot, source, made)
  {
    var brought := if i == 0 then made else None;
    ProgressMore(s, t, u, pid, base, count, i, prot, source, made, brought);
    GainedMore(s, t, u, pid, base, i, prot, source, brought);
  }

  /** The states before and after each iteration of the loop in `mmap` that fills the slots. */
  ghost predicate Filling(states: seq<State>, pid: nat, base: nat, prot: Prot, source: Source, made: Option<Backing>) {
    states != [] &&
    forall i: nat {:trigger SlotLaidAt(states, pid, base, i, prot, source, made)} :: i < |states| - 1 ==>
      SlotLaidAt(states, pid, base, i, prot, source, made)
  }

  ghost predicate SlotLaidAt(states: seq<State>, pid: nat, base: nat, i: nat, prot: Prot, source: Source,
      made: Option<Backing>)
    requires i < |states| - 1
  {
    SlotLaid(states[i], states[i + 1], pid, base, i, prot, source, made)
  }

  lemma {:induction false} FillingReserves(states: seq<State>, pid: nat, base: nat, count: nat, i: nat, prot: Prot,
      source: Source, made: Option<Backing>)
    requires Filling(states, pid, base, prot, source, made) && i < |states| <= count + 1
    requires ReservedSome(states[0], states[0], pid, base, count, 0, prot, source, made)
    ensures ReservedSome(states[0], states[i], pid, base, count, i, prot, source, made)
  {
    if i > 0 {
      var n := i - 1;
      FillingReserves(states, pid, base, count, n, prot, source, made);
      assert SlotLaidAt(states, pid, base, n, prot, source, made);
      ReservedMore(states[0], states[n], states[n + 1], pid, base, count, n, prot, source, made);
    }
  }
}

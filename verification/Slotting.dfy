/**
 Transitions that add, remove or re-protect slots, create and free backings, and
 change stored bytes.
 */
module Slotting {
  import opened Bytes
  import opened Ledger
  import opened Machine
  import opened Steps
  import opened Moves

  // ---------- A new slot ----------

  /** Every backing that a slot names survives unchanged. */
  ghost predicate BackingsSurvive(backings: Backings, backings': Backings, slots: Slots) {
    forall q :: q in slots && !slots[q].source.Anonymous? && slots[q].source.backing in backings ==>
      slots[q].source.backing in backings' && backings'[slots[q].source.backing] == backings[slots[q].source.backing]
  }

  /** A slot without a frame appears; it takes a reference to its backing, which may be new. */
  function Slotted(s: State, pl: Place, slot: Slot, made: Option<Backing>): State {
    s.(slots := s.slots[pl := slot],
       attached := if slot.source.Anonymous? then s.attached else s.attached[SlotRef(pl) := slot.source.backing],
       shares := if slot.source.Anonymous? then s.shares else Raised(s.shares, slot.source.backing),
       backings := if slot.source.Anonymous? || made.None? then s.backings
         else s.backings[slot.source.backing := made.value])
  }

  /** Every backing that a slot names exists. */
  ghost predicate SourcesKnown(slots: Slots, backings: Backings) {
    forall q :: q in slots && !slots[q].source.Anonymous? ==> slots[q].source.backing in backings
  }

  lemma SourcesAreKnown(slots: Slots, backings: Backings, procs: map<nat, Process>)
    requires SlotsOk(slots, backings, procs)
    ensures SourcesKnown(slots, backings)
  {
    forall q | q in slots && !slots[q].source.Anonymous?
      ensures slots[q].source.backing in backings
    {
      assert SlotOk(q, slots[q], backings, procs);
    }
  }

  ghost predicate CanSlot(s: State, pl: Place, slot: Slot, made: Option<Backing>) {
    && pl !in s.slots
    && (made.Some? ==> !slot.source.Anonymous? && slot.source.backing !in s.backings && made.value.seals == {})
    && var t := Slotted(s, pl, slot, made);
    && SlotOk(pl, slot, t.backings, s.procs)
    && (slot.source.Shared? && SealWrite in t.backings[slot.source.backing].seals ==> !slot.prot.write)
  }

  lemma SlotBackings(s: State, pl: Place, slot: Slot, made: Option<Backing>)
    requires BackingsConserved(s.attached, s.shares, s.backings) && AttachedAgree(s.attached, s.slots)
    requires CanSlot(s, pl, slot, made)
    ensures var t := Slotted(s, pl, slot, made);
      BackingsConserved(t.attached, t.shares, t.backings) && AttachedAgree(t.attached, t.slots)
  {
    if !slot.source.Anonymous? {
      Put(s.attached, s.shares, SlotRef(pl), slot.source.backing);
    }
  }

  lemma SlotCells(s: State, pl: Place, slot: Slot, made: Option<Backing>)
    requires CellsOk(s.resident, s.slots, s.backings)
    requires Separated(s.resident, s.slots) && SharedAgree(s.resident, s.slots)
    requires pl !in s.slots
    requires made.Some? ==> !slot.source.Anonymous? && slot.source.backing !in s.backings
    ensures var t := Slotted(s, pl, slot, made);
      CellsOk(s.resident, t.slots, t.backings) && Separated(s.resident, t.slots) && SharedAgree(s.resident, t.slots)
    ensures SlotCell(pl) !in s.resident
  {
    var t := Slotted(s, pl, slot, made);
    assert CellOk(SlotCell(pl), s.slots, s.backings) == false;
    forall c | c in s.resident
      ensures CellOk(c, t.slots, t.backings) && Key(t.slots, c) == Key(s.slots, c)
      ensures Owns(t.slots, c) == Owns(s.slots, c)
    {
      assert CellOk(c, s.slots, s.backings);
    }
  }

  lemma SlotPtes(s: State, pl: Place, slot: Slot)
    requires PtesSound(s.pt, s.tables, s.slots, s.resident) && PtesComplete(s.pt, s.slots, s.resident)
    requires pl !in s.slots && SlotCell(pl) !in s.resident
    ensures PtesSound(s.pt, s.tables, s.slots[pl := slot], s.resident)
    ensures PtesComplete(s.pt, s.slots[pl := slot], s.resident)
  {
  }

  lemma MoreSlots(slots: Slots, pl: Place, slot: Slot, backings: Backings, backings': Backings, procs: map<nat,
      Process>)
    requires SlotsOk(slots, backings, procs) && SealsHold(slots, backings)
    requires BackingsSurvive(backings, backings', slots) && pl !in slots
    requires SlotOk(pl, slot, backings', procs)
    requires slot.source.Shared? && SealWrite in backings'[slot.source.backing].seals ==> !slot.prot.write
    ensures SlotsOk(slots[pl := slot], backings', procs) && SealsHold(slots[pl := slot], backings')
  {
    forall q | q in slots
      ensures SlotOk(q, slots[q], backings', procs)
    {
      assert SlotOk(q, slots[q], backings, procs);
    }
  }

  lemma MoreSeals(s: State, pl: Place, slot: Slot, made: Option<Backing>)
    requires MemfdSeals(s.backings) && (made.Some? ==> made.value.seals == {})
    ensures MemfdSeals(Slotted(s, pl, slot, made).backings)
  {
  }

  lemma SlotInv(s: State, pl: Place, slot: Slot, made: Option<Backing>)
    requires Inv(s) && CanSlot(s, pl, slot, made)
    ensures Inv(Slotted(s, pl, slot, made))
    ensures SlotCell(pl) !in s.resident && pl !in s.pt
  {
    SlotBackings(s, pl, slot, made);
    SlotCells(s, pl, slot, made);
    MoreSlots(s.slots, pl, slot, s.backings, Slotted(s, pl, slot, made).backings, s.procs);
    SlotPtes(s, pl, slot);
    MoreSeals(s, pl, slot, made);
    assert pl in s.pt ==> PteOk(pl, s.pt[pl], s.tables, s.slots, s.resident);
  }

  /** Nobody else sees a new slot; its own bytes are those of its source. */
  lemma SlotViews(s: State, pl: Place, slot: Slot, made: Option<Backing>, t: State)
    requires SourcesKnown(s.slots, s.backings)
    requires SlotCell(pl) !in s.resident && pl !in s.slots
    requires made.Some? ==> !slot.source.Anonymous? && slot.source.backing !in s.backings
    requires t == Slotted(s, pl, slot, made)
    ensures forall q :: q != pl ==> View(t, q) == View(s, q)
    ensures pl in t.slots && View(t, pl) == Initial(t, pl)
  {
    forall q | q != pl
      ensures View(t, q) == View(s, q)
    {
      PlaceKept(s, t, q);
    }
  }

  /** A place whose slot and backing stay the same keeps its bytes. */
  lemma PlaceKept(s: State, t: State, q: Place)
    requires s.frames == t.frames && s.resident == t.resident && s.procs == t.procs
    requires q in s.slots <==> q in t.slots
    requires q in s.slots ==> SameShape(t.slots[q], s.slots[q])
    requires q in s.slots && !s.slots[q].source.Anonymous? ==>
      var b := s.slots[q].source.backing;
      b in s.backings && b in t.backings && t.backings[b].data == s.backings[b].data
    ensures View(t, q) == View(s, q)
  {
    if q in s.slots {
      SourceKeptBy(s, t, s.slots[q].source);
    }
    ViewKept(s, t, q);
  }

  /** A source keeps its bytes as long as its own backing keeps its snapshot. */
  lemma SourceKeptBy(s: State, t: State, source: Source)
    requires s.frames == t.frames && s.resident == t.resident
    requires source.Snapshot? ==> (source.backing in s.backings <==> source.backing in t.backings)
    requires source.Snapshot? && source.backing in s.backings ==>
      s.backings[source.backing].data == t.backings[source.backing].data
    ensures SourcePage(t, source) == SourcePage(s, source)
  {
    if source.Shared? {
      assert BackingPage(t, source.backing, source.index) == BackingPage(s, source.backing, source.index);
    }
  }

  // ---------- A slot goes away ----------

  function Dropped<K, V>(m: map<V, K>, shares: map<V, nat>, b: V): map<V, K>
    requires b in shares
  {
    if shares[b] == 1 then m - {b} else m
  }

  /** A slot without a frame disappears; the last reference to its backing frees the backing. */
  function Unslotted(s: State, pl: Place): State
    requires pl in s.slots
    requires !s.slots[pl].source.Anonymous? ==> s.slots[pl].source.backing in s.shares
    requires !s.slots[pl].source.Anonymous? ==> s.shares[s.slots[pl].source.backing] > 0
  {
    var source := s.slots[pl].source;
    s.(slots := s.slots - {pl},
       attached := if source.Anonymous? then s.attached else s.attached - {SlotRef(pl)},
       shares := if source.Anonymous? then s.shares else Lowered(s.shares, source.backing),
       backings := if source.Anonymous? then s.backings else Dropped(s.backings, s.shares, source.backing))
  }

  ghost predicate CanUnslot(s: State, pl: Place) {
    && pl in s.slots && SlotCell(pl) !in s.resident
    && (!s.slots[pl].source.Anonymous? ==>
        var b := s.slots[pl].source.backing;
        b in s.shares && s.shares[b] > 0 && (s.shares[b] == 1 ==> forall k :: BackingCell(b, k) !in s.resident))
  }

  /** One reference to a backing is dropped; the last one frees it. */
  lemma DetachConserves(attached: map<Attachment, nat>, shares: map<nat, nat>, backings: Backings, r: Attachment)
    requires BackingsConserved(attached, shares, backings) && r in attached
    ensures attached[r] in shares && shares[attached[r]] > 0
    ensures BackingsConserved(attached - {r}, Lowered(shares, attached[r]), Dropped(backings, shares, attached[r]))
    ensures forall q :: q in attached && q != r ==> attached[q] in Dropped(backings, shares, attached[r])
  {
    Take(attached, shares, r);
    forall q | q in attached && q != r
      ensures attached[q] in Dropped(backings, shares, attached[r])
    {
      assert q in attached - {r} && (attached - {r})[q] in Lowered(shares, attached[r]);
    }
  }

  lemma DetachSurvives(attached: map<Attachment, nat>, shares: map<nat, nat>, backings: Backings, slots: Slots,
      pl: Place)
    requires BackingsConserved(attached, shares, backings) && AttachedAgree(attached, slots)
    requires pl in slots && !slots[pl].source.Anonymous?
    ensures SlotRef(pl) in attached && attached[SlotRef(pl)] in shares
    ensures BackingsSurvive(backings, Dropped(backings, shares, attached[SlotRef(pl)]), slots - {pl})
  {
    DetachConserves(attached, shares, backings, SlotRef(pl));
    var backings' := Dropped(backings, shares, attached[SlotRef(pl)]);
    forall q | q in slots - {pl} && !slots[q].source.Anonymous?
      ensures slots[q].source.backing in backings'
    {
      assert SlotRef(q) in attached && attached[SlotRef(q)] == slots[q].source.backing;
    }
  }

  lemma DetachAgree(attached: map<Attachment, nat>, slots: Slots, pl: Place)
    requires AttachedAgree(attached, slots)
    ensures AttachedAgree(attached - {SlotRef(pl)}, slots - {pl})
  {
  }

  lemma UnslotBackings(s: State, pl: Place)
    requires BackingsConserved(s.attached, s.shares, s.backings) && AttachedAgree(s.attached, s.slots)
    requires CanUnslot(s, pl)
    ensures BackingsConserved(Unslotted(s, pl).attached, Unslotted(s, pl).shares, Unslotted(s, pl).backings)
    ensures AttachedAgree(Unslotted(s, pl).attached, Unslotted(s, pl).slots)
    ensures BackingsSurvive(s.backings, Unslotted(s, pl).backings, Unslotted(s, pl).slots)
  {
    DetachAgree(s.attached, s.slots, pl);
    if s.slots[pl].source.Anonymous? {
      assert s.attached - {SlotRef(pl)} == s.attached;
    } else {
      DetachConserves(s.attached, s.shares, s.backings, SlotRef(pl));
      DetachSurvives(s.attached, s.shares, s.backings, s.slots, pl);
    }
  }

  lemma UnslotCells(s: State, pl: Place)
    requires CellsOk(s.resident, s.slots, s.backings)
    requires Separated(s.resident, s.slots) && SharedAgree(s.resident, s.slots)
    requires CanUnslot(s, pl)
    ensures var t := Unslotted(s, pl);
      CellsOk(s.resident, t.slots, t.backings) && Separated(s.resident, t.slots) && SharedAgree(s.resident, t.slots)
  {
    var t := Unslotted(s, pl);
    forall c | c in s.resident
      ensures CellOk(c, t.slots, t.backings) && Key(t.slots, c) == Key(s.slots, c)
      ensures Owns(t.slots, c) == Owns(s.slots, c)
    {
      assert CellOk(c, s.slots, s.backings);
    }
  }

  lemma FewerSlots(slots: Slots, pl: Place, backings: Backings, backings': Backings, procs: map<nat, Process>)
    requires SlotsOk(slots, backings, procs) && SealsHold(slots, backings)
    requires BackingsSurvive(backings, backings', slots - {pl})
    ensures SlotsOk(slots - {pl}, backings', procs) && SealsHold(slots - {pl}, backings')
  {
    forall q | q in slots - {pl}
      ensures SlotOk(q, slots[q], backings', procs)
    {
      assert SlotOk(q, slots[q], backings, procs);
    }
  }

  lemma FewerPtes(s: State, pl: Place)
    requires PtesSound(s.pt, s.tables, s.slots, s.resident) && PtesComplete(s.pt, s.slots, s.resident)
    requires SlotCell(pl) !in s.resident
    ensures PtesSound(s.pt, s.tables, s.slots - {pl}, s.resident) && PtesComplete(s.pt, s.slots - {pl}, s.resident)
  {
    assert pl in s.pt ==> PteOk(pl, s.pt[pl], s.tables, s.slots, s.resident);
  }

  lemma UnslotInv(s: State, pl: Place)
    requires Inv(s) && CanUnslot(s, pl)
    ensures Inv(Unslotted(s, pl))
    ensures BackingsSurvive(s.backings, Unslotted(s, pl).backings, Unslotted(s, pl).slots)
  {
    UnslotBackings(s, pl);
    UnslotCells(s, pl);
    FewerSlots(s.slots, pl, s.backings, Unslotted(s, pl).backings, s.procs);
    FewerPtes(s, pl);
  }

  lemma UnslotViews(s: State, pl: Place, t: State)
    requires SourcesKnown(s.slots, s.backings) && CanUnslot(s, pl) && t == Unslotted(s, pl)
    requires BackingsSurvive(s.backings, t.backings, t.slots)
    ensures forall q :: q != pl ==> View(t, q) == View(s, q)
  {
    forall q | q != pl
      ensures View(t, q) == View(s, q)
    {
      UnslotView(s, pl, t, q);
    }
  }

  lemma UnslotView(s: State, pl: Place, t: State, q: Place)
    requires SourcesKnown(s.slots, s.backings) && CanUnslot(s, pl) && t == Unslotted(s, pl) && q != pl
    requires BackingsSurvive(s.backings, t.backings, t.slots)
    ensures View(t, q) == View(s, q)
  {
    assert q in s.slots ==> q in t.slots;
    PlaceKept(s, t, q);
  }
}

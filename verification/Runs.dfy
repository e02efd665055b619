/**
 Whole runs of the memory system. Every operation by a process, and every store it
 makes, is a `Step`; the theorems here are about all sequences of steps.
 */
module Runs {
  import opened Bytes
  import opened Ledger
  import opened Machine
  import opened Steps
  import opened Moves
  import opened Slotting
  import opened Changes
  import opened Faults
  import opened Teardown
  import opened Reserving
  import opened Forking
  import opened Sharing

  /** What other processes keep: their private pages, and which of their pages are shared. */
  ghost predicate Isolated(s: State, t: State, actor: nat) {
    forall pl: Place :: pl.pid != actor && pl.pid in s.procs ==> PlaceIsolated(s, t, pl)
  }

  ghost predicate PlaceIsolated(s: State, t: State, pl: Place) {
    && IsShared(t.slots, pl) == IsShared(s.slots, pl)
    && (!IsShared(s.slots, pl) ==> View(t, pl) == View(s, pl))
  }

  /** What the seals of a backing forbid a step to do. */
  ghost predicate SealsRespected(s: State, t: State, b: nat)
    requires b in s.backings && b in t.backings
  {
    var x, y := s.backings[b], t.backings[b];
    && x.seals <= y.seals && x.memfd == y.memfd && x.shared == y.shared
    && (SealShrink in x.seals ==> x.length <= y.length)
    && (SealGrow in x.seals ==> y.length <= x.length)
    && (SealWrite in x.seals ==> forall i: nat :: i < x.length && i < y.length ==>
      BackingByte(t, b, i) == BackingByte(s, b, i))
  }

  ghost predicate Guarded(s: State, t: State) {
    forall b :: b in s.backings && b in t.backings ==> SealsRespected(s, t, b)
  }

  ghost predicate Step(s: State, t: State, actor: nat) {
    Good(t) && s.procs.Keys - {actor} <= t.procs.Keys && Isolated(s, t, actor) && Guarded(s, t)
  }

  // ---------- Steps from what the operations promise ----------

  lemma FewerGuards(s: State, t: State)
    requires FewerShared(s, t)
    ensures Guarded(s, t)
  {
    forall b | b in s.backings && b in t.backings
      ensures SealsRespected(s, t, b)
    {
      assert BackingKept(s, t, b);
    }
  }

  lemma SameGuards(s: State, t: State)
    requires SameShared(s, t)
    ensures Guarded(s, t)
  {
    SameIsFewer(s, t);
    FewerGuards(s, t);
  }

  lemma SameIsolates(s: State, t: State, actor: nat)
    requires SameViews(s, t) && SameSharing(s.slots, t.slots)
    ensures Isolated(s, t, actor)
  {
    forall pl: Place | pl.pid != actor && pl.pid in s.procs
      ensures PlaceIsolated(s, t, pl)
    {
      assert View(t, pl) == View(s, pl) && SharedSource(t.slots, pl) == SharedSource(s.slots, pl);
    }
  }

  lemma InvisibleSteps(s: State, t: State, actor: nat)
    requires Invisible(s, t)
    ensures Step(s, t, actor)
  {
    SameGuards(s, t);
    SameIsolates(s, t, actor);
  }

  lemma OutsideIsolates(s: State, t: State, gone: set<Place>, actor: nat)
    requires ViewsOutside(s, t, gone) && t.slots == s.slots - gone && forall pl :: pl in gone ==> pl.pid == actor
    ensures Isolated(s, t, actor)
  {
    forall pl: Place | pl.pid != actor && pl.pid in s.procs
      ensures PlaceIsolated(s, t, pl)
    {
      assert View(t, pl) == View(s, pl);
    }
  }

  lemma ReleaseSteps(s: State, t: State, pid: nat)
    requires Good(t) && FewerShared(s, t) && t.procs.Keys == s.procs.Keys && t.slots == s.slots - SlotsOf(s, pid)
    requires forall q: Place :: q.pid != pid ==> View(t, q) == View(s, q)
    ensures Step(s, t, pid)
  {
    FewerGuards(s, t);
  }

  lemma RemoveSteps(s: State, t: State, gone: set<Place>, pid: nat)
    requires Good(t) && FewerShared(s, t) && t.procs.Keys == s.procs.Keys && t.slots == s.slots - gone
    requires ViewsOutside(s, t, gone) && forall pl :: pl in gone ==> pl.pid == pid
    ensures Step(s, t, pid)
  {
    FewerGuards(s, t);
    OutsideIsolates(s, t, gone, pid);
  }

  lemma GrowSteps(s: State, t: State, pid: nat, from: nat, to: nat)
    requires Good(t) && FewerShared(s, t) && t.procs.Keys == s.procs.Keys && HeapGrown(s, t, pid, from, to)
    ensures Step(s, t, pid)
  {
    FewerGuards(s, t);
  }

  lemma ForkSteps(s: State, t: State, parent: nat, child: nat)
    requires Good(t) && FewerShared(s, t) && s.procs.Keys <= t.procs.Keys && child !in s.procs
    requires SlotsKept(s.slots, t.slots)
    requires forall q :: q in t.slots ==> q in s.slots || q.pid == child
    requires forall q: Place :: q.pid != child ==> View(t, q) == View(s, q)
    ensures Step(s, t, parent)
  {
    FewerGuards(s, t);
  }

  lemma ProtectSteps(s: State, t: State, pid: nat)
    requires Good(t) && SameShared(s, t) && SameViews(s, t) && t.procs == s.procs && SameSharing(s.slots, t.slots)
    ensures Step(s, t, pid)
  {
    SameGuards(s, t);
    SameIsolates(s, t, pid);
  }

  // ---------- Theorems over all runs ----------

  ghost predicate Run(states: seq<State>, actors: seq<nat>) {
    && |states| == |actors| + 1
    && forall i :: 0 <= i < |actors| ==> Step(states[i], states[i + 1], actors[i])
  }

  lemma RunPrefix(states: seq<State>, actors: seq<nat>, n: nat)
    requires Run(states, actors) && n <= |actors|
    ensures Run(states[..n + 1], actors[..n])
  {
  }

  /**
   Whatever the other processes do, and however long, a private page of a process keeps
   its bytes until the process itself acts; and references stay conserved.
   */
  lemma {:induction false} PrivatePagesKeep(states: seq<State>, actors: seq<nat>, pl: Place)
    requires Run(states, actors) && Good(states[0])
    requires pl.pid in states[0].procs && pl.pid !in actors && !IsShared(states[0].slots, pl)
    ensures View(states[|actors|], pl) == View(states[0], pl)
    ensures Good(states[|actors|]) && pl.pid in states[|actors|].procs && !IsShared(states[|actors|].slots, pl)
    decreases |actors|
  {
    if |actors| > 0 {
      var n := |actors| - 1;
      RunPrefix(states, actors, n);
      PrivatePagesKeep(states[..n + 1], actors[..n], pl);
      OneStep(states[n], states[n + 1], actors[n], pl);
    }
  }

  lemma OneStep(s: State, t: State, actor: nat, pl: Place)
    requires Step(s, t, actor) && pl.pid in s.procs && pl.pid != actor && !IsShared(s.slots, pl)
    ensures View(t, pl) == View(s, pl) && Good(t) && pl.pid in t.procs && !IsShared(t.slots, pl)
  {
    assert PlaceIsolated(s, t, pl);
  }

  /** What `fork` leaves: the child's pages are the parent's, and every other process keeps its own. */
  ghost predicate ForkedFrom(s: State, t: State, parent: nat, child: nat) {
    && Good(t) && parent != child && parent in t.procs && child in t.procs
    && (forall page: nat :: View(t, Place(child, page)) == View(s, Place(parent, page)))
    && (forall page: nat :: View(t, Place(parent, page)) == View(s, Place(parent, page)))
    && (forall page: nat :: SharedSource(t.slots, Place(child, page)) == SharedSource(t.slots, Place(parent, page)))
  }

  lemma ForkShares(s: State, t: State, parent: nat, child: nat)
    requires SlotsKept(s.slots, t.slots) && forall page: nat :: SlotInherited(s, t, parent, child, page)
    requires parent != child && forall q :: q in t.slots ==> q in s.slots || q.pid == child
    ensures forall page: nat :: SharedSource(t.slots, Place(child, page)) == SharedSource(t.slots, Place(parent, page))
  {
    forall page: nat
      ensures SharedSource(t.slots, Place(child, page)) == SharedSource(t.slots, Place(parent, page))
    {
      assert SlotInherited(s, t, parent, child, page);
    }
  }

  /** Two places that show the same page of one shared backing. */
  ghost predicate Common(slots: Slots, pl: Place, q: Place) {
    SharedSource(slots, pl) == SharedSource(slots, q) != None
  }

  /**
   Fork isolation over every later run: as long as the child does not act, its private
   pages show what the parent showed at the fork, and the same holds of the parent
   whatever the child does; pages of a shared backing stay common to both.
   */
  lemma ForkIsolation(before: State, states: seq<State>, actors: seq<nat>, parent: nat, child: nat, page: nat)
    requires Run(states, actors) && ForkedFrom(before, states[0], parent, child)
    ensures child !in actors && !IsShared(states[0].slots, Place(child, page)) ==>
      View(states[|actors|], Place(child, page)) == View(before, Place(parent, page))
    ensures parent !in actors && !IsShared(states[0].slots, Place(parent, page)) ==>
      View(states[|actors|], Place(parent, page)) == View(before, Place(parent, page))
    ensures Common(states[|actors|].slots, Place(child, page), Place(parent, page)) ==>
      View(states[|actors|], Place(child, page)) == View(states[|actors|], Place(parent, page))
  {
    var s, t := states[0], states[|actors|];
    assert View(s, Place(child, page)) == View(before, Place(parent, page)) == View(s, Place(parent, page));
    if child !in actors && !IsShared(s.slots, Place(child, page)) {
      PrivatePagesKeep(states, actors, Place(child, page));
    }
    if parent !in actors && !IsShared(s.slots, Place(parent, page)) {
      PrivatePagesKeep(states, actors, Place(parent, page));
    }
    RunGood(states, actors);
    if SharedSource(t.slots, Place(child, page)) == SharedSource(t.slots, Place(parent, page)) != None {
      SharedPagesCommon(t, Place(child, page), Place(parent, page));
    }
  }

  lemma RunGood(states: seq<State>, actors: seq<nat>)
    requires Run(states, actors) && Good(states[0])
    ensures Good(states[|actors|])
  {
    if |actors| > 0 {
      assert Step(states[|actors| - 1], states[|actors|], actors[|actors| - 1]);
    }
  }

  /** Two mappings of the same page of a shared backing show the same bytes, in every reachable state. */
  lemma SharedPagesCommon(s: State, p: Place, q: Place)
    requires Good(s) && SharedSource(s.slots, p) == SharedSource(s.slots, q) != None
    ensures View(s, p) == View(s, q) != None
  {
    SharedPageView(s, p);
    SharedPageView(s, q);
  }

  lemma SharedPageView(s: State, p: Place)
    requires Good(s) && IsShared(s.slots, p)
    ensures View(s, p) == Some(BackingPage(s, s.slots[p].source.backing, s.slots[p].source.index))
  {
    assert SlotOk(p, s.slots[p], s.backings, s.procs);
    if SlotCell(p) in s.resident {
      FrameKnown(s, SlotCell(p));
    }
  }

  /** A backing that lives through a run keeps its seals; write and shrink seals freeze its bytes. */
  lemma {:induction false} SealsForever(states: seq<State>, actors: seq<nat>, b: nat)
    requires Run(states, actors) && forall i :: 0 <= i < |states| ==> b in states[i].backings
    ensures states[0].backings[b].seals <= states[|actors|].backings[b].seals
    ensures SealShrink in states[0].backings[b].seals ==>
      states[0].backings[b].length <= states[|actors|].backings[b].length
    ensures SealGrow in states[0].backings[b].seals ==>
      states[|actors|].backings[b].length <= states[0].backings[b].length
    ensures SealWrite in states[0].backings[b].seals && SealShrink in states[0].backings[b].seals ==>
      forall i: nat :: i < states[0].backings[b].length ==>
        BackingByte(states[|actors|], b, i) == BackingByte(states[0], b, i)
    decreases |actors|
  {
    if |actors| > 0 {
      var n := |actors| - 1;
      RunPrefix(states, actors, n);
      SealsForever(states[..n + 1], actors[..n], b);
      OneGuard(states[n], states[n + 1], actors[n], b);
    }
  }

  lemma OneGuard(s: State, t: State, actor: nat, b: nat)
    requires Step(s, t, actor) && b in s.backings && b in t.backings
    ensures SealsRespected(s, t, b)
  {
  }

  /** Once write-sealed, a backing is never again mapped writably, by any process. */
  lemma NeverWritable(states: seq<State>, actors: seq<nat>, b: nat, pl: Place)
    requires Run(states, actors) && Good(states[0])
    requires forall i :: 0 <= i < |states| ==> b in states[i].backings
    requires SealWrite in states[0].backings[b].seals
    requires pl in states[|actors|].slots && states[|actors|].slots[pl].source.Shared?
      && states[|actors|].slots[pl].source.backing == b
    ensures !states[|actors|].slots[pl].prot.write
    ensures pl in states[|actors|].pt ==> !states[|actors|].pt[pl].writable
  {
    SealsForever(states, actors, b);
    var t := states[|actors|];
    if |actors| > 0 {
      assert Step(states[|actors| - 1], t, actors[|actors| - 1]);
    }
    SealedSlot(t, b, pl);
  }

  lemma SealedSlot(t: State, b: nat, pl: Place)
    requires Good(t) && b in t.backings && SealWrite in t.backings[b].seals
    requires pl in t.slots && t.slots[pl].source.Shared? && t.slots[pl].source.backing == b
    ensures !t.slots[pl].prot.write && (pl in t.pt ==> !t.pt[pl].writable)
  {
    assert pl in t.pt ==> PteOk(pl, t.pt[pl], t.tables, t.slots, t.resident);
  }

  /** Nothing leaks: once no process has a slot, no object is open and nothing is cached, all memory is free. */
  lemma NothingLeaks(s: State)
    requires Good(s) && s.slots == map[] && s.attached == map[]
    requires forall c :: c in s.resident ==> !c.CacheCell?
    ensures s.frames == map[] && s.refs == map[] && s.backings == map[]
  {
    NoHolders(s.attached, s.shares);
    assert s.backings.Keys == {};
    forall c: Cell
      ensures c !in s.resident
    {
      assert c in s.resident ==> CellOk(c, s.slots, s.backings);
    }
    assert s.resident == map[];
    NoHolders(s.resident, s.refs);
    assert s.frames.Keys == {};
  }

  lemma NoHolders<K, V>(cells: map<K, V>, counts: map<V, nat>)
    requires Balanced(cells, counts) && cells == map[]
    ensures counts == map[]
  {
    forall v
      ensures v !in counts
    {
      assert Holders(cells, v) == {};
    }
  }
}

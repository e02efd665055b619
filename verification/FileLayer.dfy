/**
 The descriptor operations: placing, duplicating, closing, cloning and transferring
 descriptors, pipes and advisory locks (xscore/kernel/file.c).
 */
module FileLayer {
  import opened Bytes
  import opened Files
  import opened FileRuns

  datatype Result = Ok(fd: nat) | Ebadf | Emfile | Enomem | Einval

  /** What is left of a table when its capacity grows: everything. */
  function Widened(s: State, t: nat, capacity: nat): State {
    s.(capacity := s.capacity[t := capacity])
  }

  lemma WidenInv(s: State, t: nat, capacity: nat)
    requires Inv(s) && t in s.capacity && s.capacity[t] <= capacity <= FD_MAX
    ensures Inv(Widened(s, t, capacity))
  {
  }

  lemma WidenTwice(s: State, t: nat, a: nat, b: nat)
    ensures Widened(Widened(s, t, a), t, b) == Widened(s, t, b)
  {
  }

  /** Descriptions that exist in both states are the same. */
  ghost predicate DescsKept(descs: Descs, descs': Descs) {
    forall f :: f in descs' ==> f in descs && descs'[f] == descs[f]
  }

  ghost predicate AllUsed(cells: Cells, t: nat, from: nat, upto: nat) {
    forall j: nat :: from <= j < upto ==> Slot(t, j) in cells
  }

  /** The slots that a range close takes. */
  ghost predicate Doomed(s: State, t: nat, first: nat, onlyMarked: bool, h: Holder) {
    h.Slot? && h.table == t && first <= h.fd && (onlyMarked ==> h in s.cloexec)
  }

  /** A range close that has come up to slot `upto`. */
  ghost predicate Closing(before: State, s: State, t: nat, first: nat, upto: nat, onlyMarked: bool) {
    && (forall h: Holder :: h in s.cells <==>
      h in before.cells && !(Doomed(before, t, first, onlyMarked, h) && h.fd < upto))
    && (forall h: Holder :: h in s.cells ==> h in before.cells && s.cells[h] == before.cells[h])
    && (forall h: Holder :: h in s.cloexec <==>
      h in before.cloexec && !(Doomed(before, t, first, onlyMarked, h) && h.fd < upto))
    && DescsKept(before.descs, s.descs)
  }

  lemma CloseMore(before: State, s: State, s': State, t: nat, first: nat, fd: nat, onlyMarked: bool)
    requires Closing(before, s, t, first, fd, onlyMarked) && first <= fd && DescsKept(s.descs, s'.descs)
    requires var h := Slot(t, fd);
      if h in s.cells && (onlyMarked ==> h in s.cloexec) then s'.cells == s.cells - {h} && s'.cloexec == s.cloexec - {h}
      else s' == s
    requires s.cloexec <= s.cells.Keys
    ensures Closing(before, s', t, first, fd + 1, onlyMarked)
  {
  }

  lemma CellReplaced(cells: Cells, h: Holder, f: nat)
    ensures (cells - {h})[h := f] == cells[h := f]
  {
  }

  lemma CloseDone(before: State, s: State, t: nat, first: nat, upto: nat, onlyMarked: bool)
    requires Closing(before, s, t, first, upto, onlyMarked) && Inv(before) && t in before.capacity
    requires before.capacity[t] <= upto
    ensures forall h :: h in s.cells <==> h in before.cells && !Doomed(before, t, first, onlyMarked, h)
    ensures forall h :: h in s.cloexec <==> h in before.cloexec && !Doomed(before, t, first, onlyMarked, h)
  {
    assert forall h: Holder :: h in before.cells && h.Slot? && h.table == t ==> h.fd < upto;
  }

  /** Two slots that hold the same description with the same flags, or nothing. */
  ghost predicate SameSlot(s: State, h: Holder, s': State, h': Holder) {
    && (h in s.cells <==> h' in s'.cells)
    && (h in s.cells ==> s'.cells[h'] == s.cells[h] && (h in s.cloexec <==> h' in s'.cloexec))
  }

  /** A clone of `src` that has copied the slots below `fd`. */
  ghost predicate Cloning(before: State, s: State, src: nat, dst: nat, fd: nat) {
    && (forall h: Holder :: h in before.cells ==>
      h in s.cells && s.cells[h] == before.cells[h] && (h in s.cloexec <==> h in before.cloexec))
    && (forall h: Holder :: h in s.cells && h !in before.cells ==> h.Slot? && h.table == dst && h.fd < fd)
    && (forall j: nat :: j < fd ==> SameSlot(before, Slot(src, j), s, Slot(dst, j)))
    && (forall h: Holder :: h in before.cells && h.Slot? ==> h.table != dst)
  }

  lemma NewTableInv(s: State, t: nat)
    requires Inv(s) && t !in s.capacity
    ensures Inv(Widened(s, t, FD_INLINE_MAX))
  {
  }

  lemma CloneBegins(before: State, s: State, src: nat, dst: nat)
    requires Inv(before) && dst !in before.capacity && s.cells == before.cells && s.cloexec == before.cloexec
    ensures Cloning(before, s, src, dst, 0)
  {
  }

  lemma CloneMore(before: State, s: State, s': State, src: nat, dst: nat, fd: nat)
    requires Cloning(before, s, src, dst, fd) && src != dst
    requires if Slot(src, fd) in s.cells
      then s' == Taken(s, Slot(dst, fd), s.cells[Slot(src, fd)], Slot(src, fd) in s.cloexec) else s' == s
    requires s.cloexec <= s.cells.Keys
    ensures Cloning(before, s', src, dst, fd + 1)
  {
    assert Slot(src, fd) in s.cells <==> Slot(src, fd) in before.cells;
    forall j: nat | j < fd + 1
      ensures SameSlot(before, Slot(src, j), s', Slot(dst, j))
    {
      assert j < fd ==> SameSlot(before, Slot(src, j), s, Slot(dst, j));
    }
  }

  lemma CloneDone(before: State, s: State, src: nat, dst: nat, last: nat)
    requires Cloning(before, s, src, dst, last) && Inv(before) && src in before.capacity && last == before.capacity[src]
    requires dst !in before.capacity
    ensures forall fd: nat :: SameSlot(before, Slot(src, fd), s, Slot(dst, fd))
  {
    forall fd: nat
      ensures SameSlot(before, Slot(src, fd), s, Slot(dst, fd))
    {
      assert fd < last ==> SameSlot(before, Slot(src, fd), s, Slot(dst, fd));
    }
  }

  /** The slots are in order, free, and no other slot below `upto` is free. */
  ghost predicate Lowest(cells: Cells, t: nat, slots: seq<nat>, upto: nat) {
    && (forall i, j :: 0 <= i < j < |slots| ==> slots[i] < slots[j])
    && (forall i :: 0 <= i < |slots| ==> slots[i] < upto && Slot(t, slots[i]) !in cells)
    && (forall fd: nat :: fd < upto && Slot(t, fd) !in cells ==> fd in slots)
  }

  lemma LowestPair(cells: Cells, t: nat, fds: seq<nat>)
    requires |fds| == 2 && Lowest(cells, t, fds, fds[1] + 1)
    ensures Slot(t, fds[0]) !in cells && Slot(t, fds[1]) !in cells && fds[0] != fds[1]
  {
  }

  /** Fewer than `count` slots of a table are free up to the limit. */
  ghost predicate TooFew(cells: Cells, t: nat, count: nat) {
    exists slots :: |slots| < count && Lowest(cells, t, slots, FD_MAX)
  }

  lemma LowestMore(cells: Cells, t: nat, slots: seq<nat>, fd: nat)
    requires Lowest(cells, t, slots, fd)
    ensures Lowest(cells, t, if Slot(t, fd) !in cells then slots + [fd] else slots, fd + 1)
  {
    var more := if Slot(t, fd) !in cells then slots + [fd] else slots;
    forall x: nat | x < fd + 1 && Slot(t, x) !in cells
      ensures x in more
    {
      assert x < fd ==> x in slots;
      assert x == fd ==> more[|slots|] == fd;
    }
  }

  /** The first `n` of the slots. */
  ghost function SlotSet(t: nat, slots: seq<nat>, n: nat): set<Holder>
    requires n <= |slots|
  {
    set i | 0 <= i < n :: Slot(t, slots[i])
  }

  /** The first `n` descriptions in flight have got their slots, and nothing else has changed. */
  ghost predicate Installed(before: Cells, cells: Cells, t: nat, flights: seq<nat>, slots: seq<nat>, n: nat)
    requires n <= |slots| == |flights|
  {
    && cells.Keys == before.Keys + SlotSet(t, slots, n)
    && (forall h :: h in before ==> h in cells && cells[h] == before[h])
    && (forall i :: 0 <= i < n ==>
      var f, h := Flight(flights[i]), Slot(t, slots[i]);
      f in before && h in cells && cells[h] == before[f])
  }

  ghost predicate Installing(before: State, s: State, t: nat, flights: seq<nat>, slots: seq<nat>, n: nat)
    requires n <= |slots| == |flights|
  {
    && Inv(s) && s == before.(cells := s.cells, refs := s.refs)
    && Installed(before.cells, s.cells, t, flights, slots, n)
  }

  lemma InstallNone(before: Cells, t: nat, flights: seq<nat>, slots: seq<nat>)
    requires |slots| == |flights|
    ensures Installed(before, before, t, flights, slots, 0)
  {
    assert SlotSet(t, slots, 0) == {};
  }

  lemma InstallFree(before: Cells, cells: Cells, t: nat, flights: seq<nat>, slots: seq<nat>, i: nat)
    requires i < |slots| == |flights| && Lowest(before, t, slots, slots[|slots| - 1] + 1)
    requires Installed(before, cells, t, flights, slots, i) && Flight(flights[i]) in before
    ensures Slot(t, slots[i]) !in cells && Flight(flights[i]) in cells
  {
  }

  lemma InstallMore(before: Cells, cells: Cells, cells': Cells, t: nat, flights: seq<nat>, slots: seq<nat>, i: nat)
    requires i < |slots| == |flights| && Installed(before, cells, t, flights, slots, i)
    requires Flight(flights[i]) in before && Flight(flights[i]) in cells && Slot(t, slots[i]) !in cells
    requires cells' == cells[Slot(t, slots[i]) := cells[Flight(flights[i])]]
    ensures Installed(before, cells', t, flights, slots, i + 1)
  {
    assert SlotSet(t, slots, i + 1) == SlotSet(t, slots, i) + {Slot(t, slots[i])};
  }

  /** The test that `flock` makes against every other description. */
  predicate Conflicts(other: Desc, d: Desc, lock: Lock) {
    && lock != Unlocked && other.vnode && d.vnode && other.node == d.node && other.lock != Unlocked
    && (lock == LockExclusive || other.lock == LockExclusive)
  }

  /** An unlock, or no file, or every other lock on the same file is shared, as the one asked for is. */
  ghost predicate Unobstructed(descs: Descs, f: nat, lock: Lock)
    requires f in descs
  {
    lock == Unlocked || !descs[f].vnode || forall g ::
      g in descs && g != f && descs[g].vnode && descs[g].node == descs[f].node ==>
        descs[g].lock == Unlocked || (lock == LockShared && descs[g].lock == LockShared)
  }

  lemma NoConflictIs(descs: Descs, f: nat, lock: Lock)
    requires f in descs
    ensures NoConflict(descs, f, lock) <==> Unobstructed(descs, f, lock)
  {
    if Unobstructed(descs, f, lock) {
      forall g | g in descs && g != f
        ensures !Clash(descs[g], descs[f].(lock := lock))
      {
      }
    }
    if NoConflict(descs, f, lock) {
      forall g | g in descs && g != f && descs[g].vnode && descs[g].node == descs[f].node && descs[f].vnode
        ensures lock == Unlocked || descs[g].lock == Unlocked || (lock == LockShared && descs[g].lock == LockShared)
      {
        assert !Clash(descs[g], descs[f].(lock := lock));
      }
    }
  }

  /** The slot `h'` holds what `h` holds, and no other slot, description or pipe has changed. */
  ghost predicate AlsoHeld(s: State, s': State, h: Holder, h': Holder, cloexec: bool) {
    && h in s.cells && s'.cells == s.cells[h' := s.cells[h]]
    && s'.cloexec == (if cloexec then s.cloexec + {h'} else s.cloexec)
    && s'.descs == s.descs && s'.pipes == s.pipes
  }

  lemma TakenIsHeld(s: State, t: nat, capacity: nat, h: Holder, h': Holder, cloexec: bool)
    requires h in s.cells
    ensures AlsoHeld(s, Taken(Widened(s, t, capacity), h', s.cells[h], cloexec), h, h', cloexec)
  {
  }

  /** A new pipe with its two ends in the lowest free slots, or nothing but a larger table. */
  ghost predicate PipeMade(s: State, s': State, starved: bool, t: nat, r: Result, fds: seq<nat>, p: nat, a: nat, b: nat,
      cloexec: bool) {
    && t in s'.capacity
    && (!r.Ok? ==> s' == Widened(s, t, s'.capacity[t]) && (starved || TooFew(s.cells, t, 2)))
    && (r.Ok? ==> |fds| == 2 && Lowest(s.cells, t, fds, fds[1] + 1))
    && (r.Ok? ==> p !in s.pipes && a !in s.descs && b !in s.descs && a != b)
    && (r.Ok? ==> s' == Piped(Widened(s, t, s'.capacity[t]), p, a, b, Slot(t, fds[0]), Slot(t, fds[1]), cloexec))
  }

  /** The two slots hold the two ends of a new pipe, and nothing else has changed. */
  ghost predicate PipeHeld(s: State, s': State, p: nat, a: nat, b: nat, hr: Holder, hw: Holder, cloexec: bool) {
    && s'.cells == s.cells[hr := a][hw := b] && s'.pipes == s.pipes[p := Ends(1, 1)]
    && s'.descs == s.descs[a := Desc(false, false, false, 0, Unlocked, Some(p), true, false)]
                          [b := Desc(false, false, false, 0, Unlocked, Some(p), false, true)]
    && s'.cloexec == s.cloexec + if cloexec then {hr, hw} else {}
  }

  lemma PipedIsHeld(s: State, t: nat, capacity: nat, p: nat, a: nat, b: nat, hr: Holder, hw: Holder, cloexec: bool)
    ensures PipeHeld(s, Piped(Widened(s, t, capacity), p, a, b, hr, hw, cloexec), p, a, b, hr, hw, cloexec)
  {
  }

  datatype Locking = Granted | NotOpen | NotAFile | Refused | Interrupted

  class Layer {
    var s: State
    /** Set when the heap or a pool has refused an allocation. */
    ghost var starved: bool

    ghost predicate Valid()
      reads this
    {
      Inv(s)
    }

    // ---------- References ----------

    method Release(h: Holder)
      requires Valid() && h in s.cells
      modifies this
      ensures Valid() && s.cells == old(s).cells - {h} && s.cloexec == old(s).cloexec - {h}
      ensures s.capacity == old(s).capacity
      ensures DescsKept(old(s).descs, s.descs)
      ensures old(s).cells[h] in s.descs <==> old(s).descs[old(s).cells[h]].immortal || exists g ::
        g in s.cells && s.cells[g] == old(s).cells[h]
      ensures FileStep(old(s), s, if h.Flight? then {h.id} else {})
    {
      DropInv(s, h);
      ghost var before, f := s, s.cells[h];
      s := Dropped(s, h);
      DropSteps(before, h, s);
      StillHeld(s, f);
    }

    /**
     `fd_lookup_ref` by the operation `id`: the description cannot go away until the
     reference is put back.
     */
    method LookupRef(t: nat, fd: nat, id: nat) returns (found: bool)
      requires Valid() && Flight(id) !in s.cells
      modifies this
      ensures Valid() && found == (Slot(t, fd) in old(s).cells)
      ensures !found ==> s == old(s)
      ensures found ==> s == Taken(old(s), Flight(id), old(s).cells[Slot(t, fd)], false)
      ensures found ==> s.cells == old(s).cells[Flight(id) := old(s).cells[Slot(t, fd)]]
      ensures s.descs == old(s).descs && s.cloexec == old(s).cloexec && s.pipes == old(s).pipes
      ensures FileStep(old(s), s, {})
    {
      found := Slot(t, fd) in s.cells;
      if found {
        DropFacts(s, Slot(t, fd));
        TakeInv(s, Flight(id), s.cells[Slot(t, fd)], false);
        s := Taken(s, Flight(id), s.cells[Slot(t, fd)], false);
      }
    }

    // ---------- Placement ----------

    /** The lowest free slot from `from` on, or the capacity. */
    method FindFree(t: nat, from: nat) returns (fd: nat)
      requires t in s.capacity && from <= s.capacity[t]
      ensures from <= fd <= s.capacity[t] && AllUsed(s.cells, t, from, fd)
      ensures fd < s.capacity[t] ==> Slot(t, fd) !in s.cells
    {
      fd := from;
      while fd < s.capacity[t] && Slot(t, fd) in s.cells
        invariant from <= fd <= s.capacity[t] && AllUsed(s.cells, t, from, fd)
      {
        fd := fd + 1;
      }
    }

    /** `fd_table_grow_locked`: the capacity doubles until it suffices; the heap may refuse. */
    method Grow(t: nat, required: nat) returns (r: Result)
      requires Valid() && t in s.capacity
      modifies this
      ensures Valid() && t in s.capacity && s == Widened(old(s), t, s.capacity[t])
      ensures r == Ok(0) || r == Emfile || r == Enomem
      ensures r == Ok(0) ==> required <= s.capacity[t] && old(s).capacity[t] <= s.capacity[t]
      ensures r == Ok(0) && required > old(s).capacity[t] ==> s.capacity[t] < 2 * required
      ensures r == Emfile <==> required > FD_MAX
      ensures r != Ok(0) ==> s == old(s)
      ensures r == Enomem ==> starved
      ensures FileStep(old(s), s, {})
    {
      assert s == Widened(s, t, s.capacity[t]);
      if required > FD_MAX {
        return Emfile;
      }
      var capacity := s.capacity[t];
      if required <= capacity {
        return Ok(0);
      }
      while capacity < required && capacity < FD_MAX
        invariant s.capacity[t] <= capacity <= FD_MAX && capacity < 2 * required
        decreases FD_MAX - capacity
      {
        capacity := if capacity > FD_MAX / 2 then FD_MAX else capacity * 2;
      }
      var granted: bool := *;
      if !granted {
        starved := true;
        return Enomem;
      }
      WidenInv(s, t, capacity);
      s := Widened(s, t, capacity);
      return Ok(0);
    }

    /**
     The lowest free slot from `from` on, growing the table as needed. It fails with EMFILE
     exactly when no slot up to the limit is free.
     */
    method Reserve(t: nat, from: nat) returns (r: Result)
      requires Valid() && t in s.capacity && from <= s.capacity[t]
      modifies this
      ensures Valid() && t in s.capacity && s == Widened(old(s), t, s.capacity[t])
      ensures r.Ok? || r == Emfile || r == Enomem
      ensures r.Ok? ==> from <= r.fd < s.capacity[t] && Slot(t, r.fd) !in s.cells && AllUsed(s.cells, t, from, r.fd)
      ensures r == Emfile ==> AllUsed(s.cells, t, from, FD_MAX)
      ensures r == Enomem ==> starved
      ensures FileStep(old(s), s, {})
    {
      ghost var before := s;
      assert s == Widened(before, t, s.capacity[t]);
      while true
        invariant Valid() && t in s.capacity && from <= s.capacity[t] && s == Widened(before, t, s.capacity[t])
        decreases FD_MAX - s.capacity[t]
      {
        var fd := FindFree(t, from);
        if fd < s.capacity[t] {
          return Ok(fd);
        }
        r := GrowOnce(before, t);
        if !r.Ok? {
          return;
        }
      }
    }

    // ---------- Opening, duplicating and closing ----------

    /** A new description in the lowest free slot. No description in use is ever handed out again. */
    method Open(t: nat, d: Desc, cloexec: bool) returns (r: Result, ghost f: nat)
      requires Valid() && t in s.capacity && d.lock == Unlocked && d.pipe.None?
      modifies this
      ensures Valid()
      ensures r.Ok? ==> f !in old(s).descs && Slot(t, r.fd) !in old(s).cells && AllUsed(old(s).cells, t, 0, r.fd)
      ensures r.Ok? ==> forall h :: h in old(s).cells ==> old(s).cells[h] != f
      ensures r.Ok? ==> t in s.capacity && s == Opened(Widened(old(s), t, s.capacity[t]), Slot(t, r.fd), f, d, cloexec)
      ensures r.Ok? ==> s.cells == old(s).cells[Slot(t, r.fd) := f] && s.descs == old(s).descs[f := d]
      ensures r.Ok? ==> s.pipes == old(s).pipes && s.cloexec == old(s).cloexec + if cloexec then {Slot(t, r.fd)} else {}
      ensures !r.Ok? ==> t in s.capacity && s == Widened(old(s), t, s.capacity[t])
      ensures !r.Ok? ==> starved || AllUsed(old(s).cells, t, 0, FD_MAX)
      ensures FileStep(old(s), s, {})
    {
      var g: nat := *;
      f := g;
      assert s == Widened(s, t, s.capacity[t]);
      if g in s.descs {
        starved := true;
        return Emfile, g;
      }
      FreshUnreferenced(s, g);
      r := Reserve(t, 0);
      if r.Ok? {
        OpenInv(s, Slot(t, r.fd), g, d, cloexec);
        OpenSteps(s, Slot(t, r.fd), g, d, cloexec);
        s := Opened(s, Slot(t, r.fd), g, d, cloexec);
      }
    }

    method Close(t: nat, fd: nat) returns (r: Result)
      requires Valid()
      modifies this
      ensures Valid()
      ensures r == if Slot(t, fd) in old(s).cells then Ok(0) else Ebadf
      ensures s.cells == old(s).cells - {Slot(t, fd)} && s.cloexec == old(s).cloexec - {Slot(t, fd)}
      ensures DescsKept(old(s).descs, s.descs)
      ensures FileStep(old(s), s, {})
    {
      if Slot(t, fd) !in s.cells {
        return Ebadf;
      }
      Release(Slot(t, fd));
      return Ok(0);
    }

    /** `dup` and `F_DUPFD`: the same description, in the lowest free slot from `from` on. */
    method Duplicate(t: nat, fd: nat, from: nat, cloexec: bool) returns (r: Result)
      requires Valid() && t in s.capacity && fd < FD_MAX
      modifies this
      ensures Valid() && t in s.capacity
      ensures from >= FD_MAX ==> r == Einval
      ensures from < FD_MAX && Slot(t, fd) !in old(s).cells ==> r == Ebadf
      ensures r.Ok? ==> Slot(t, fd) in old(s).cells && from <= r.fd < FD_MAX
      ensures r.Ok? ==> Slot(t, r.fd) !in old(s).cells && AllUsed(old(s).cells, t, from, r.fd)
      ensures r.Ok? ==> s == Taken(Widened(old(s), t, s.capacity[t]), Slot(t, r.fd), old(s).cells[Slot(t, fd)], cloexec)
      ensures r.Ok? ==> AlsoHeld(old(s), s, Slot(t, fd), Slot(t, r.fd), cloexec)
      ensures r == Emfile ==> AllUsed(old(s).cells, t, from, FD_MAX)
      ensures !r.Ok? ==> s == Widened(old(s), t, s.capacity[t])
      ensures r == Enomem ==> starved
      ensures !r.Ok? ==> starved || from >= FD_MAX || Slot(t, fd) !in old(s).cells || r == Emfile
      ensures FileStep(old(s), s, {})
    {
      assert s == Widened(s, t, s.capacity[t]);
      if from >= FD_MAX {
        return Einval;
      }
      if Slot(t, fd) !in s.cells {
        return Ebadf;
      }
      ghost var before := s;
      r := Grow(t, from + 1);
      if !r.Ok? {
        return;
      }
      ghost var grown := s.capacity[t];
      r := Reserve(t, from);
      WidenTwice(before, t, grown, s.capacity[t]);
      if r.Ok? {
        TakenIsHeld(before, t, s.capacity[t], Slot(t, fd), Slot(t, r.fd), cloexec);
        Share(Slot(t, fd), Slot(t, r.fd), cloexec);
      }
    }

    /** A free slot takes a reference to what another slot holds. */
    method Share(h: Holder, target: Holder, cloexec: bool)
      requires Valid() && h in s.cells && target !in s.cells
      requires target.Slot? && target.table in s.capacity && target.fd < s.capacity[target.table]
      modifies this
      ensures Valid() && s == Taken(old(s), target, old(s).cells[h], cloexec)
      ensures FileStep(old(s), s, {})
    {
      DropFacts(s, h);
      TakeInv(s, target, s.cells[h], cloexec);
      s := Taken(s, target, s.cells[h], cloexec);
    }

    /** `dup2`: the target slot lets go of what it held and shares the description. */
    method Dup2(t: nat, fd: nat, target: nat) returns (r: Result)
      requires Valid() && t in s.capacity
      modifies this
      ensures Valid() && t in s.capacity
      ensures r.Ok? ==> r.fd == target && Slot(t, fd) in old(s).cells && DescsKept(old(s).descs, s.descs)
      ensures r.Ok? ==> s.cells == old(s).cells[Slot(t, target) := old(s).cells[Slot(t, fd)]]
      ensures r.Ok? ==> s.cloexec == if fd == target then old(s).cloexec else old(s).cloexec - {Slot(t, target)}
      ensures !r.Ok? ==> s == Widened(old(s), t, s.capacity[t])
      ensures fd < FD_MAX && target < FD_MAX && r == Ebadf ==> Slot(t, fd) !in old(s).cells
      ensures !r.Ok? ==> starved || fd >= FD_MAX || target >= FD_MAX || Slot(t, fd) !in old(s).cells
      ensures FileStep(old(s), s, {})
    {
      assert s == Widened(s, t, s.capacity[t]);
      if fd >= FD_MAX || target >= FD_MAX {
        return Ebadf;
      }
      if target >= s.capacity[t] {
        r := Grow(t, target + 1);
        if !r.Ok? {
          return;
        }
      }
      if Slot(t, fd) !in s.cells {
        return Ebadf;
      }
      if fd == target {
        return Ok(target);
      }
      ReplaceSlot(Slot(t, target), s.cells[Slot(t, fd)], Slot(t, fd));
      return Ok(target);
    }

    /** A slot changes hands; another holder keeps the new description alive meanwhile. */
    method ReplaceSlot(h: Holder, ghost f: nat, other: Holder)
      requires Valid() && h.Slot? && h.table in s.capacity && h.fd < s.capacity[h.table]
      requires other != h && other in s.cells && s.cells[other] == f
      modifies this
      ensures Valid() && s.cells == old(s).cells[h := f] && s.cloexec == old(s).cloexec - {h}
      ensures s.capacity == old(s).capacity && DescsKept(old(s).descs, s.descs)
      ensures FileStep(old(s), s, {})
    {
      CellReplaced(s.cells, h, f);
      ClearSlot(h);
      Share(other, h, false);
    }

    method ClearSlot(h: Holder)
      requires Valid() && h.Slot?
      modifies this
      ensures Valid() && s.cells == old(s).cells - {h} && s.cloexec == old(s).cloexec - {h}
      ensures s.capacity == old(s).capacity && DescsKept(old(s).descs, s.descs)
      ensures FileStep(old(s), s, {})
    {
      Still(s);
      if h in s.cells {
        Release(h);
      }
    }

    // ---------- Whole tables ----------

    /** Closes the slots of a table from `first` on, or only those marked close-on-exec. */
    method CloseRange(t: nat, first: nat, onlyMarked: bool)
      requires Valid() && t in s.capacity
      modifies this
      ensures Valid() && s.capacity == old(s).capacity && DescsKept(old(s).descs, s.descs)
      ensures forall h :: h in s.cells <==> h in old(s).cells && !Doomed(old(s), t, first, onlyMarked, h)
      ensures forall h: Holder :: h in old(s).cells && h !in s.cells <==>
        h in old(s).cells && h.Slot? && h.table == t && h.fd >= first && (h in old(s).cloexec || !onlyMarked)
      ensures forall h :: h in s.cells ==> s.cells[h] == old(s).cells[h]
      ensures forall h :: h in s.cloexec <==> h in old(s).cloexec && !Doomed(old(s), t, first, onlyMarked, h)
      ensures FileStep(old(s), s, {})
    {
      ghost var before := s;
      var fd, last: int := first, s.capacity[t];
      while fd < last
        invariant Valid() && s.capacity == before.capacity && first <= fd
        invariant Closing(before, s, t, first, fd, onlyMarked)
        decreases last - fd
      {
        fd := CloseNext(before, t, first, fd, onlyMarked);
      }
      CloseDone(before, s, t, first, fd, onlyMarked);
    }

    method CloseNext(ghost before: State, t: nat, ghost first: nat, fd: nat, onlyMarked: bool) returns (next: nat)
      requires Valid() && first <= fd && Closing(before, s, t, first, fd, onlyMarked)
      modifies this
      ensures Valid() && s.capacity == old(s).capacity && next == fd + 1
      ensures Closing(before, s, t, first, next, onlyMarked)
    {
      var h := Slot(t, fd);
      ghost var here := s;
      if h in s.cells && (onlyMarked ==> h in s.cloexec) {
        Release(h);
      }
      CloseMore(before, here, s, t, first, fd, onlyMarked);
      next := fd + 1;
    }

    /** `fd_table_clone`: the new table has the same descriptors, flags and descriptions, or none. */
    method Clone(dst: nat, src: nat) returns (r: Result)
      requires Valid() && src in s.capacity && dst !in s.capacity
      modifies this
      ensures Valid() && dst in s.capacity && s.descs == old(s).descs
      ensures forall h :: h in old(s).cells ==>
        h in s.cells && s.cells[h] == old(s).cells[h] && (h in s.cloexec <==> h in old(s).cloexec)
      ensures forall h :: h in s.cells && h !in old(s).cells ==> h.Slot? && h.table == dst
      ensures r.Ok? ==> forall fd: nat :: SameSlot(old(s), Slot(src, fd), s, Slot(dst, fd))
      ensures !r.Ok? ==> s.cells == old(s).cells
      ensures !r.Ok? ==> starved
      ensures FileStep(old(s), s, {})
    {
      ghost var before := s;
      NewTableInv(s, dst);
      s := Widened(s, dst, FD_INLINE_MAX);
      r := Grow(dst, s.capacity[src]);
      if !r.Ok? {
        return;
      }
      CloneBegins(before, s, src, dst);
      var fd, last := 0, s.capacity[src];
      while fd < last
        invariant fd <= last && Valid() && Cloning(before, s, src, dst, fd) && s.descs == before.descs
        invariant src in s.capacity && dst in s.capacity && last <= s.capacity[dst] && last == before.capacity[src]
      {
        CloneNext(before, src, dst, fd);
        fd := fd + 1;
      }
      CloneDone(before, s, src, dst, last);
    }

    method CloneNext(ghost before: State, src: nat, dst: nat, fd: nat)
      requires Valid() && Cloning(before, s, src, dst, fd) && dst in s.capacity && fd < s.capacity[dst] && src != dst
      modifies this
      ensures Valid() && Cloning(before, s, src, dst, fd + 1) && s.capacity == old(s).capacity
      ensures s.descs == old(s).descs
    {
      ghost var here := s;
      if Slot(src, fd) in s.cells {
        Share(Slot(src, fd), Slot(dst, fd), Slot(src, fd) in s.cloexec);
      }
      CloneMore(before, here, s, src, dst, fd);
    }

    // ---------- Several slots at once ----------

    /** Collects free slots up to the capacity, until there are `count`. */
    method Scan(t: nat, found: seq<nat>, from: nat, count: nat) returns (slots: seq<nat>, fd: nat)
      requires t in s.capacity && from <= s.capacity[t] && |found| <= count && Lowest(s.cells, t, found, from)
      requires |found| == count ==> from == (if count == 0 then 0 else found[count - 1] + 1)
      ensures from <= fd <= s.capacity[t] && |slots| <= count && Lowest(s.cells, t, slots, fd)
      ensures |slots| < count ==> fd == s.capacity[t]
      ensures |slots| == count ==> fd == if count == 0 then 0 else slots[count - 1] + 1
    {
      slots, fd := found, from;
      while fd < s.capacity[t] && |slots| < count
        invariant from <= fd <= s.capacity[t] && |slots| <= count && Lowest(s.cells, t, slots, fd)
        invariant |slots| == count ==> fd == if count == 0 then 0 else slots[count - 1] + 1
      {
        LowestMore(s.cells, t, slots, fd);
        if Slot(t, fd) !in s.cells {
          slots := slots + [fd];
        }
        fd := fd + 1;
      }
    }

    /** The lowest `count` free slots, in order, growing the table as needed. */
    method FindFreeMany(t: nat, count: nat) returns (r: Result, slots: seq<nat>)
      requires Valid() && t in s.capacity
      modifies this
      ensures Valid() && t in s.capacity && s == Widened(old(s), t, s.capacity[t])
      ensures r.Ok? ==> |slots| == count && Lowest(s.cells, t, slots, if count == 0 then 0 else slots[count - 1] + 1)
      ensures r.Ok? ==> forall i :: 0 <= i < count ==> slots[i] < s.capacity[t]
      ensures !r.Ok? ==> starved || TooFew(s.cells, t, count)
      ensures FileStep(old(s), s, {})
    {
      ghost var before := s;
      assert s == Widened(before, t, s.capacity[t]);
      var fd;
      slots, fd := Scan(t, [], 0, count);
      while |slots| < count
        invariant Valid() && t in s.capacity && s == Widened(before, t, s.capacity[t])
        invariant fd <= s.capacity[t] && |slots| <= count && Lowest(s.cells, t, slots, fd)
        invariant |slots| < count ==> fd == s.capacity[t]
        invariant |slots| == count ==> fd == if count == 0 then 0 else slots[count - 1] + 1
        decreases FD_MAX - s.capacity[t]
      {
        r := GrowOnce(before, t);
        if !r.Ok? {
          return r, [];
        }
        slots, fd := Scan(t, slots, fd, count);
      }
      r := Ok(0);
    }

    /** Doubles the capacity, up to the limit. */
    method GrowOnce(ghost before: State, t: nat) returns (r: Result)
      requires Valid() && t in s.capacity && s == Widened(before, t, s.capacity[t])
      modifies this
      ensures Valid() && t in s.capacity && s == Widened(before, t, s.capacity[t])
      ensures s == Widened(old(s), t, s.capacity[t])
      ensures r.Ok? ==> old(s).capacity[t] < s.capacity[t] <= FD_MAX
      ensures r.Ok? || r == Emfile || r == Enomem
      ensures r == Emfile ==> s == old(s) && s.capacity[t] == FD_MAX
      ensures r == Enomem ==> starved
      ensures FileStep(old(s), s, {})
    {
      var was := s.capacity[t];
      assert FD_INLINE_MAX <= was;
      if was >= FD_MAX {
        return Emfile;
      }
      r := Grow(t, if was > FD_MAX / 2 then FD_MAX else was * 2);
      WidenTwice(before, t, was, s.capacity[t]);
    }

    /**
     `fd_transfer_install_many`: all descriptions in flight get a slot each, the lowest free
     ones in order, or none does.
     */
    method InstallMany(t: nat, flights: seq<nat>) returns (r: Result, slots: seq<nat>)
      requires Valid() && t in s.capacity
      requires forall i :: 0 <= i < |flights| ==> Flight(flights[i]) in s.cells
      modifies this
      ensures Valid() && s.descs == old(s).descs && s.cloexec == old(s).cloexec
      ensures !r.Ok? ==> s.cells == old(s).cells
      ensures r.Ok? ==> |slots| == |flights|
      ensures r.Ok? ==> Lowest(old(s).cells, t, slots, if |slots| == 0 then 0 else slots[|slots| - 1] + 1)
      ensures r.Ok? ==> Installed(old(s).cells, s.cells, t, flights, slots, |slots|)
      ensures !r.Ok? ==> starved || TooFew(old(s).cells, t, |flights|)
      ensures FileStep(old(s), s, {})
    {
      r, slots := FindFreeMany(t, |flights|);
      if r.Ok? {
        InstallAll(t, flights, slots);
      }
    }

    method InstallAll(t: nat, flights: seq<nat>, slots: seq<nat>)
      requires Valid() && t in s.capacity && |slots| == |flights|
      requires Lowest(s.cells, t, slots, if |slots| == 0 then 0 else slots[|slots| - 1] + 1)
      requires forall i :: 0 <= i < |slots| ==> slots[i] < s.capacity[t] && Flight(flights[i]) in s.cells
      modifies this
      ensures Valid() && s.descs == old(s).descs && s.cloexec == old(s).cloexec
      ensures Installed(old(s).cells, s.cells, t, flights, slots, |slots|)
    {
      ghost var before := s;
      InstallNone(before.cells, t, flights, slots);
      var i := 0;
      while i < |flights|
        invariant i <= |flights| && Installing(before, s, t, flights, slots, i)
      {
        InstallNext(before, t, flights, slots, i);
        i := i + 1;
      }
    }

    method InstallNext(ghost before: State, t: nat, flights: seq<nat>, slots: seq<nat>, i: nat)
      requires i < |slots| == |flights| && Installing(before, s, t, flights, slots, i)
      requires t in before.capacity && slots[i] < before.capacity[t] && Flight(flights[i]) in before.cells
      requires Lowest(before.cells, t, slots, slots[|slots| - 1] + 1)
      modifies this
      ensures Installing(before, s, t, flights, slots, i + 1)
    {
      InstallFree(before.cells, s.cells, t, flights, slots, i);
      ghost var here := s;
      Share(Flight(flights[i]), Slot(t, slots[i]), false);
      InstallMore(before.cells, here.cells, s.cells, t, flights, slots, i);
    }

    /** `pipe`: two new descriptions at the lowest two free slots. */
    method PipeCreate(t: nat, cloexec: bool)
      returns (r: Result, fds: seq<nat>, ghost p: nat, ghost a: nat, ghost b: nat)
      requires Valid() && t in s.capacity
      modifies this
      ensures Valid() && t in s.capacity
      ensures PipeMade(old(s), s, starved, t, r, fds, p, a, b, cloexec) && FileStep(old(s), s, {})
      ensures r.Ok? ==> |fds| == 2 && PipeHeld(old(s), s, p, a, b, Slot(t, fds[0]), Slot(t, fds[1]), cloexec)
    {
      var q: nat, x: nat, y: nat := *, *, *;
      p, a, b, fds := q, x, y, [];
      if q in s.pipes || x in s.descs || y in s.descs || x == y {
        r := Refuse(t);
        return;
      }
      r, fds := PlacePipe(t, q, x, y, cloexec);
    }

    /** Memory has run out, and nothing changes. */
    method Refuse(t: nat) returns (r: Result)
      requires Valid() && t in s.capacity
      modifies this`starved
      ensures r == Enomem && starved && s == Widened(s, t, s.capacity[t]) && FileStep(s, s, {})
    {
      starved := true;
      Still(s);
      return Enomem;
    }

    method PlacePipe(t: nat, p: nat, a: nat, b: nat, cloexec: bool) returns (r: Result, fds: seq<nat>)
      requires Valid() && t in s.capacity && p !in s.pipes && a !in s.descs && b !in s.descs && a != b
      modifies this
      ensures Valid() && t in s.capacity
      ensures PipeMade(old(s), s, starved, t, r, fds, p, a, b, cloexec) && FileStep(old(s), s, {})
      ensures r.Ok? ==> |fds| == 2 && PipeHeld(old(s), s, p, a, b, Slot(t, fds[0]), Slot(t, fds[1]), cloexec)
    {
      ghost var before := s;
      r, fds := FindFreeMany(t, 2);
      if r.Ok? {
        PipedIsHeld(before, t, s.capacity[t], p, a, b, Slot(t, fds[0]), Slot(t, fds[1]), cloexec);
        LowestPair(s.cells, t, fds);
        OpenPipe(p, a, b, Slot(t, fds[0]), Slot(t, fds[1]), cloexec);
      }
    }

    method OpenPipe(p: nat, a: nat, b: nat, hr: Holder, hw: Holder, cloexec: bool)
      requires Valid() && p !in s.pipes && a !in s.descs && b !in s.descs && a != b
      requires hr !in s.cells && hw !in s.cells && hr != hw && hr.Slot? && hw.Slot?
      requires hr.table in s.capacity && hr.fd < s.capacity[hr.table] && hw.table in s.capacity
      requires hw.fd < s.capacity[hw.table]
      modifies this
      ensures Valid() && s == Piped(old(s), p, a, b, hr, hw, cloexec) && FileStep(old(s), s, {})
    {
      PipeInv(s, p, a, b, hr, hw, cloexec);
      PipeSteps(s, p, a, b, hr, hw, cloexec);
      s := Piped(s, p, a, b, hr, hw, cloexec);
    }

    // ---------- Locks ----------

    /** One attempt of `flock` on a description: it is refused exactly when another lock is in the way. */
    method TryLock(f: nat, lock: Lock) returns (granted: bool)
      requires Valid() && f in s.descs
      modifies this
      ensures Valid() && granted == NoConflict(old(s).descs, f, lock)
      ensures granted <==> Unobstructed(old(s).descs, f, lock)
      ensures s == if granted then Locked(old(s), f, lock) else old(s)
      ensures granted ==> s == old(s).(descs := old(s).descs[f := old(s).descs[f].(lock := lock)])
      ensures FileStep(old(s), s, {})
    {
      Still(s);
      NoConflictIs(s.descs, f, lock);
      var todo := s.descs.Keys - {f};
      while todo != {}
        invariant todo <= s.descs.Keys - {f} && s == old(s)
        invariant forall g :: g in s.descs && g != f && g !in todo ==> !Clash(s.descs[g], s.descs[f].(lock := lock))
        decreases todo
      {
        var g :| g in todo;
        if Conflicts(s.descs[g], s.descs[f], lock) {
          return false;
        }
        todo := todo - {g};
      }
      LockInv(s, f, lock);
      LockSteps(s, f, lock);
      s := Locked(s, f, lock);
      return true;
    }

    /** Others run: whatever they do, an operation in flight keeps its open file. */
    method Yield(id: nat)
      requires Valid() && Flight(id) in s.cells
      modifies this
      ensures Valid() && Flight(id) in s.cells && s.cells[Flight(id)] == old(s).cells[Flight(id)]
      ensures var f := old(s).cells[Flight(id)];
        f in s.descs && f in old(s).descs && SameFile(old(s).descs[f], s.descs[f])
    {
      ghost var f := s.cells[Flight(id)];
      StillHeld(s, f);
      ghost var d := s.descs[f];
      var turns: nat := *;
      while turns > 0
        invariant Valid() && Holding(s, id, f, d)
      {
        Turn(id, f, d);
        turns := turns - 1;
      }
    }

    /** One operation of somebody else. */
    method Turn(id: nat, ghost f: nat, ghost d: Desc)
      requires Valid() && Holding(s, id, f, d)
      modifies this
      ensures Valid() && Holding(s, id, f, d)
    {
      var t: nat, u: nat, lock: Lock, which: nat := *, *, *, *;
      ghost var before := s;
      if which == 0 && t != id && Flight(t) in s.cells {
        Release(Flight(t));
        StepHolds(before, s, {t}, id, f, d);
      } else if which == 1 && u in s.descs {
        var granted := TryLock(u, lock);
        StepHolds(before, s, {}, id, f, d);
      } else if which == 2 && t in s.capacity {
        TableTurn(t);
        StepHolds(before, s, {}, id, f, d);
      } else if t in s.capacity {
        FillTurn(t);
        StepHolds(before, s, {}, id, f, d);
      }
    }

    /** Descriptors of a table are duplicated, closed or replaced, or the table is. */
    method TableTurn(t: nat)
      requires Valid() && t in s.capacity
      modifies this
      ensures Valid() && FileStep(old(s), s, {})
    {
      var fd: nat, n: nat, u: nat, flag: bool, which: nat := *, *, *, *, *;
      Still(s);
      if which == 0 {
        var r := Close(t, fd);
      } else if which == 1 {
        var r := Dup2(t, fd, n);
      } else if which == 2 && fd < FD_MAX {
        var r := Duplicate(t, fd, n, flag);
      } else if which == 3 {
        CloseRange(t, n, flag);
      } else if u !in s.capacity {
        var r := Clone(u, t);
      }
    }

    /** A table gets new descriptors, or an operation takes a reference to one. */
    method FillTurn(t: nat)
      requires Valid() && t in s.capacity
      modifies this
      ensures Valid() && FileStep(old(s), s, {})
    {
      var d: Desc, fd: nat, flag: bool, which: nat, flights: seq<nat> := *, *, *, *, *;
      Still(s);
      if which == 0 && d.lock == Unlocked && d.pipe.None? {
        var r;
        ghost var f;
        r, f := Open(t, d, flag);
      } else if which == 1 {
        var r, fds;
        ghost var p, a, b;
        r, fds, p, a, b := PipeCreate(t, flag);
      } else if which == 2 && Flight(fd) !in s.cells {
        var n: nat := *;
        var found := LookupRef(t, n, fd);
      } else if forall i :: 0 <= i < |flights| ==> Flight(flights[i]) in s.cells {
        var r, slots := InstallMany(t, flights);
      }
    }

    /**
     `flock`: granted as soon as no lock stands in the way, and otherwise refused, interrupted
     or tried again after others have run; the open file is the same throughout. `at` is the
     state in which it was decided.
     */
    method Flock(t: nat, fd: nat, id: nat, lock: Lock, nonblocking: bool, patience: nat)
      returns (r: Locking, ghost f: nat, ghost at: State)
      requires Valid() && Flight(id) !in s.cells
      modifies this
      ensures Valid() && Flight(id) !in s.cells
      ensures r == NotOpen <==> Slot(t, fd) !in old(s).cells
      ensures r == NotOpen ==> s == old(s)
      ensures r != NotOpen ==> f == old(s).cells[Slot(t, fd)] && f in old(s).descs && f in at.descs
      ensures r != NotOpen ==> SameFile(old(s).descs[f], at.descs[f])
      ensures r != NotOpen ==> Flight(id) in at.cells && at.cells[Flight(id)] == f && s.cells == at.cells - {Flight(id)}
      ensures r != NotOpen ==> (r == NotAFile <==> !old(s).descs[f].vnode)
      ensures r == Granted ==> NoConflict(at.descs, f, lock) && (f in s.descs ==> s.descs[f].lock == lock)
      ensures r == Refused || r == Interrupted ==> nonblocking == (r == Refused) && !NoConflict(at.descs, f, lock)
      ensures r == Refused || r == Interrupted ==> DescsKept(at.descs, s.descs)
      ensures r != NotOpen && old(s).descs[f].vnode && NoConflict(old(s).descs, f, lock) ==> r == Granted
    {
      f, at := 0, s;
      var found := LookupRef(t, fd, id);
      if !found {
        return NotOpen, 0, s;
      }
      f := s.cells[Flight(id)];
      StillHeld(s, f);
      r, at := Contend(id, lock, nonblocking, patience);
      StillHeld(s, f);
      Release(Flight(id));
    }

    /** The attempts of `flock`. */
    method Contend(id: nat, lock: Lock, nonblocking: bool, patience: nat) returns (r: Locking, ghost at: State)
      requires Valid() && Flight(id) in s.cells && s.cells[Flight(id)] in s.descs
      modifies this
      ensures Valid() && Flight(id) in s.cells && s.cells == at.cells && s.cells[Flight(id)] == old(s).cells[Flight(id)]
      ensures var f := old(s).cells[Flight(id)]; f in at.descs && SameFile(old(s).descs[f], at.descs[f])
      ensures var f := old(s).cells[Flight(id)]; r != NotOpen && (r == NotAFile <==> !old(s).descs[f].vnode)
      ensures var f := old(s).cells[Flight(id)];
        if r == Granted then NoConflict(at.descs, f, lock) && s == Locked(at, f, lock) else s == at
      ensures var f := old(s).cells[Flight(id)]; r == Refused || r == Interrupted ==>
        nonblocking == (r == Refused) && !NoConflict(at.descs, f, lock)
      ensures var f := old(s).cells[Flight(id)]; old(s).descs[f].vnode && NoConflict(old(s).descs, f, lock) ==>
        r == Granted
    {
      var f := s.cells[Flight(id)];
      ghost var d := s.descs[f];
      ghost var clear := NoConflict(s.descs, f, lock);
      var waited := 0;
      while true
        invariant Valid() && Holding(s, id, f, d) && waited <= patience && (clear && d.vnode ==> s == old(s))
        decreases patience - waited
      {
        at := s;
        if !s.descs[f].vnode {
          return NotAFile, s;
        }
        var granted := TryLock(f, lock);
        if granted {
          return Granted, at;
        }
        if nonblocking {
          return Refused, s;
        }
        if waited == patience {
          return Interrupted, s;
        }
        Yield(id);
        waited := waited + 1;
      }
    }

  }

}

/**
 Open-file descriptions, the descriptor slots and operations in progress that hold
 references to them, pipe ends and advisory locks (xscore/kernel/file.c).

 A description of `file_pool` whose reference count and flags are zero is not in `descs`.
 Entry `fd` of table `t` is the cell `Slot(t, fd)`; a reference that an operation or a
 descriptor transfer holds between `fd_lookup_ref` and `file_put` is a cell `Flight(n)`.
 */
module Files {
  import opened Bytes
  import opened Ledger

  const FD_MAX: nat := 1024
  const FD_INLINE_MAX: nat := 16

  datatype Holder = Slot(table: nat, fd: nat) | Flight(id: nat)

  datatype Lock = Unlocked | LockShared | LockExclusive

  datatype Desc = Desc(immortal: bool, socket: bool, vnode: bool, node: nat, lock: Lock,
                       pipe: Option<nat>, reader: bool, writer: bool)

  datatype Ends = Ends(readers: nat, writers: nat)

  type Cells = map<Holder, nat>
  type Descs = map<nat, Desc>
  type Pipes = map<nat, Ends>

  datatype State = State(capacity: map<nat, nat>, cells: Cells, cloexec: set<Holder>,
                         refs: map<nat, nat>, descs: Descs, pipes: Pipes)

  // ---------- Invariant ----------

  /** Used slots lie within the capacity of their table. */
  ghost predicate InTables(cells: Cells, capacity: map<nat, nat>) {
    forall h: Holder :: h in cells && h.Slot? ==> h.table in capacity && h.fd < capacity[h.table]
  }

  ghost predicate Capacities(capacity: map<nat, nat>) {
    forall t :: t in capacity ==> FD_INLINE_MAX <= capacity[t] <= FD_MAX
  }

  /** A description exists exactly while it is referenced, or if it is immortal. */
  ghost predicate Live(refs: map<nat, nat>, descs: Descs) {
    && (forall f :: f in refs ==> f in descs)
    && (forall f :: f in descs ==> f in refs || descs[f].immortal)
  }

  ghost function ReadEnds(descs: Descs, p: nat): set<nat> {
    set f | f in descs && descs[f].pipe == Some(p) && descs[f].reader
  }

  ghost function WriteEnds(descs: Descs, p: nat): set<nat> {
    set f | f in descs && descs[f].pipe == Some(p) && descs[f].writer
  }

  /** A pipe is in use exactly while it has an end, and its counts are those of its open ends. */
  ghost predicate PipesOk(descs: Descs, pipes: Pipes) {
    && (forall f :: f in descs && descs[f].pipe.Some? ==>
        descs[f].pipe.value in pipes && (descs[f].reader || descs[f].writer) && !descs[f].immortal)
    && (forall p :: p in pipes ==> PipeOk(descs, pipes, p))
  }

  ghost predicate PipeOk(descs: Descs, pipes: Pipes, p: nat)
    requires p in pipes
  {
    && pipes[p].readers == |ReadEnds(descs, p)| && pipes[p].writers == |WriteEnds(descs, p)|
    && pipes[p].readers + pipes[p].writers > 0
  }

  ghost predicate Clash(a: Desc, b: Desc) {
    && a.vnode && b.vnode && a.node == b.node
    && a.lock != Unlocked && b.lock != Unlocked && (a.lock == LockExclusive || b.lock == LockExclusive)
  }

  /** An exclusive lock on a file excludes every other lock on it. */
  ghost predicate Exclusion(descs: Descs) {
    forall f, g :: f in descs && g in descs && f != g ==> !Clash(descs[f], descs[g])
  }

  ghost predicate Inv(s: State) {
    && Balanced(s.cells, s.refs) && InTables(s.cells, s.capacity) && Capacities(s.capacity)
    && s.cloexec <= s.cells.Keys
    && Live(s.refs, s.descs) && PipesOk(s.descs, s.pipes) && Exclusion(s.descs)
  }

  // ---------- Taking a reference ----------

  function Taken(s: State, h: Holder, f: nat, cloexec: bool): State {
    s.(cells := s.cells[h := f], refs := Raised(s.refs, f), cloexec := if cloexec then s.cloexec + {h} else s.cloexec)
  }

  ghost predicate CanTake(s: State, h: Holder, f: nat) {
    h !in s.cells && f in s.descs && (h.Slot? ==> h.table in s.capacity && h.fd < s.capacity[h.table])
  }

  lemma TakeInv(s: State, h: Holder, f: nat, cloexec: bool)
    requires Inv(s) && CanTake(s, h, f)
    ensures Inv(Taken(s, h, f, cloexec))
  {
    Put(s.cells, s.refs, h, f);
  }

  // ---------- Dropping a reference ----------

  /** The pipes after an end is gone. */
  function Unpiped(pipes: Pipes, d: Desc): Pipes {
    if d.pipe.None? || d.pipe.value !in pipes then pipes
    else
      var p, e := d.pipe.value, pipes[d.pipe.value];
      var r := if d.reader && e.readers > 0 then e.readers - 1 else e.readers;
      var w := if d.writer && e.writers > 0 then e.writers - 1 else e.writers;
      if r == 0 && w == 0 then pipes - {p} else pipes[p := Ends(r, w)]
  }

  /** `file_release`: the last reference frees a description that is not immortal, and its pipe end. */
  function Dropped(s: State, h: Holder): State
    requires h in s.cells && s.cells[h] in s.refs && s.refs[s.cells[h]] > 0 && s.cells[h] in s.descs
  {
    var f := s.cells[h];
    var last := s.refs[f] == 1 && !s.descs[f].immortal;
    s.(cells := s.cells - {h}, cloexec := s.cloexec - {h}, refs := Lowered(s.refs, f),
       descs := if last then s.descs - {f} else s.descs,
       pipes := if last then Unpiped(s.pipes, s.descs[f]) else s.pipes)
  }

  lemma DropFacts(s: State, h: Holder)
    requires Balanced(s.cells, s.refs) && Live(s.refs, s.descs) && h in s.cells
    ensures s.cells[h] in s.refs && s.refs[s.cells[h]] > 0 && s.cells[h] in s.descs
  {
  }

  lemma DropInv(s: State, h: Holder)
    requires Inv(s) && h in s.cells
    ensures s.cells[h] in s.refs && s.refs[s.cells[h]] > 0 && s.cells[h] in s.descs
    ensures Inv(Dropped(s, h))
  {
    DropFacts(s, h);
    var f := s.cells[h];
    Take(s.cells, s.refs, h);
    if s.refs[f] == 1 && !s.descs[f].immortal {
      UnpipedOk(s.descs, s.pipes, f);
    }
  }

  lemma UnpipedOk(descs: Descs, pipes: Pipes, f: nat)
    requires PipesOk(descs, pipes) && f in descs
    ensures PipesOk(descs - {f}, Unpiped(pipes, descs[f]))
  {
    var d := descs[f];
    var t, q := descs - {f}, Unpiped(pipes, d);
    forall p | p in pipes && d.pipe != Some(p)
      ensures ReadEnds(t, p) == ReadEnds(descs, p) && WriteEnds(t, p) == WriteEnds(descs, p)
    {
    }
    if d.pipe.Some? {
      var p := d.pipe.value;
      assert PipeOk(descs, pipes, p);
      EndGone(descs, f, p);
      forall g | g in t && t[g].pipe == Some(p)
        ensures ReadEnds(t, p) != {} || WriteEnds(t, p) != {}
      {
        assert g in ReadEnds(t, p) || g in WriteEnds(t, p);
      }
    }
    forall p | p in q
      ensures PipeOk(t, q, p)
    {
      assert PipeOk(descs, pipes, p);
    }
  }

  lemma EndGone(descs: Descs, f: nat, p: nat)
    requires f in descs && descs[f].pipe == Some(p)
    ensures |ReadEnds(descs - {f}, p)| == |ReadEnds(descs, p)| - (if descs[f].reader then 1 else 0)
    ensures |WriteEnds(descs - {f}, p)| == |WriteEnds(descs, p)| - (if descs[f].writer then 1 else 0)
  {
    assert ReadEnds(descs - {f}, p) == ReadEnds(descs, p) - {f};
    assert WriteEnds(descs - {f}, p) == WriteEnds(descs, p) - {f};
  }

  // ---------- A new description ----------

  /** A description that nobody holds yet, taken by its first holder. */
  function Opened(s: State, h: Holder, f: nat, d: Desc, cloexec: bool): State {
    Taken(s.(descs := s.descs[f := d]), h, f, cloexec)
  }

  /** No description is handed out again while anybody still refers to it. */
  lemma FreshUnreferenced(s: State, f: nat)
    requires Inv(s) && f !in s.descs
    ensures f !in s.refs && forall h :: h in s.cells ==> s.cells[h] != f
  {
  }

  lemma OpenInv(s: State, h: Holder, f: nat, d: Desc, cloexec: bool)
    requires Inv(s) && f !in s.descs && h !in s.cells
    requires (h.Slot? ==> h.table in s.capacity && h.fd < s.capacity[h.table])
    requires d.lock == Unlocked && d.pipe.None?
    ensures Inv(Opened(s, h, f, d, cloexec))
  {
    FreshUnreferenced(s, f);
    Put(s.cells, s.refs, h, f);
    PipesUntouched(s.descs, s.pipes, f, d);
    UnlockedExcludes(s.descs, f, d);
  }

  /** A description that is no pipe end, or stays the same end, leaves the pipes alone. */
  lemma PipesUntouched(descs: Descs, pipes: Pipes, f: nat, d: Desc)
    requires PipesOk(descs, pipes)
    requires if f in descs then d == descs[f].(lock := d.lock) else d.pipe.None?
    ensures PipesOk(descs[f := d], pipes)
  {
    forall p | p in pipes
      ensures PipeOk(descs[f := d], pipes, p)
    {
      assert PipeOk(descs, pipes, p);
      assert ReadEnds(descs[f := d], p) == ReadEnds(descs, p) && WriteEnds(descs[f := d], p) == WriteEnds(descs, p);
    }
  }

  lemma UnlockedExcludes(descs: Descs, f: nat, d: Desc)
    requires Exclusion(descs) && d.lock == Unlocked
    ensures Exclusion(descs[f := d])
  {
  }

  // ---------- Locks ----------

  function Locked(s: State, f: nat, lock: Lock): State
    requires f in s.descs
  {
    s.(descs := s.descs[f := s.descs[f].(lock := lock)])
  }

  ghost predicate NoConflict(descs: Descs, f: nat, lock: Lock)
    requires f in descs
  {
    forall g :: g in descs && g != f ==> !Clash(descs[g], descs[f].(lock := lock))
  }

  lemma LockInv(s: State, f: nat, lock: Lock)
    requires Inv(s) && f in s.descs && NoConflict(s.descs, f, lock)
    ensures Inv(Locked(s, f, lock))
  {
    PipesUntouched(s.descs, s.pipes, f, s.descs[f].(lock := lock));
    LockExcludes(s.descs, f, lock);
  }

  lemma LockExcludes(descs: Descs, f: nat, lock: Lock)
    requires Exclusion(descs) && f in descs && NoConflict(descs, f, lock)
    ensures Exclusion(descs[f := descs[f].(lock := lock)])
  {
    var t := descs[f := descs[f].(lock := lock)];
    forall a, b | a in t && b in t && a != b
      ensures !Clash(t[a], t[b])
    {
      assert a != f ==> !Clash(descs[a], descs[f].(lock := lock));
      assert b != f ==> !Clash(descs[b], descs[f].(lock := lock));
    }
  }

  // ---------- Pipes ----------

  function ReadEnd(p: nat): Desc {
    Desc(false, false, false, 0, Unlocked, Some(p), true, false)
  }

  function WriteEnd(p: nat): Desc {
    Desc(false, false, false, 0, Unlocked, Some(p), false, true)
  }

  /** A new pipe with its two descriptions and their two holders. */
  function Piped(s: State, p: nat, r: nat, w: nat, hr: Holder, hw: Holder, cloexec: bool): State {
    var t := s.(descs := s.descs[r := ReadEnd(p)][w := WriteEnd(p)], pipes := s.pipes[p := Ends(1, 1)]);
    Taken(Taken(t, hr, r, cloexec), hw, w, cloexec)
  }

  lemma PipedEnds(descs: Descs, pipes: Pipes, p: nat, r: nat, w: nat)
    requires PipesOk(descs, pipes) && p !in pipes && r !in descs && w !in descs && r != w
    ensures PipesOk(descs[r := ReadEnd(p)][w := WriteEnd(p)], pipes[p := Ends(1, 1)])
  {
    var t, q := descs[r := ReadEnd(p)][w := WriteEnd(p)], pipes[p := Ends(1, 1)];
    assert ReadEnds(t, p) == {r} && WriteEnds(t, p) == {w};
    forall x | x in pipes
      ensures PipeOk(t, q, x)
    {
      assert PipeOk(descs, pipes, x);
      assert ReadEnds(t, x) == ReadEnds(descs, x) && WriteEnds(t, x) == WriteEnds(descs, x);
    }
  }

  lemma PipeInv(s: State, p: nat, r: nat, w: nat, hr: Holder, hw: Holder, cloexec: bool)
    requires Inv(s) && p !in s.pipes && r !in s.descs && w !in s.descs && r != w
    requires hr !in s.cells && hw !in s.cells && hr != hw && hr.Slot? && hw.Slot?
    requires hr.table in s.capacity && hr.fd < s.capacity[hr.table] && hw.table in s.capacity
    requires hw.fd < s.capacity[hw.table]
    ensures Inv(Piped(s, p, r, w, hr, hw, cloexec))
  {
    FreshUnreferenced(s, r);
    FreshUnreferenced(s, w);
    PipedEnds(s.descs, s.pipes, p, r, w);
    UnlockedExcludes(s.descs, r, ReadEnd(p));
    UnlockedExcludes(s.descs[r := ReadEnd(p)], w, WriteEnd(p));
    Put(s.cells, s.refs, hr, r);
    Put(s.cells[hr := r], Raised(s.refs, r), hw, w);
  }
}

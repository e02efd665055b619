/**
 Whole runs of the descriptor layer: every operation on any table, by any process, is a
 `FileStep`, and the theorem here is about all sequences of steps.
 */
module FileRuns {
  import opened Ledger
  import opened Files

  /** References in flight that the step does not itself put are where they were. */
  ghost predicate FlightsKept(cells: Cells, cells': Cells, puts: set<nat>) {
    forall id :: id !in puts && Flight(id) in cells ==> Flight(id) in cells' && cells'[Flight(id)] == cells[Flight(id)]
  }

  /** A description that survives is the same open file; only its lock may have changed. */
  ghost predicate SameFiles(descs: Descs, descs': Descs) {
    forall f :: f in descs && f in descs' ==> SameFile(descs[f], descs'[f])
  }

  ghost predicate SameFile(d: Desc, e: Desc) {
    e == d.(lock := e.lock)
  }

  /** A step that puts the references in `puts`. */
  ghost predicate FileStep(s: State, t: State, puts: set<nat>) {
    Inv(t) && FlightsKept(s.cells, t.cells, puts) && SameFiles(s.descs, t.descs)
  }

  lemma DropSteps(s: State, h: Holder, t: State)
    requires h in s.cells && s.cells[h] in s.refs && s.refs[s.cells[h]] > 0 && s.cells[h] in s.descs
    requires t == Dropped(s, h) && Inv(t)
    ensures FileStep(s, t, if h.Flight? then {h.id} else {})
  {
    FlightsDrop(s.cells, h);
    FilesFewer(s.descs, t.descs);
  }

  lemma FlightsDrop(cells: Cells, h: Holder)
    ensures FlightsKept(cells, cells - {h}, if h.Flight? then {h.id} else {})
  {
  }

  lemma FilesFewer(descs: Descs, descs': Descs)
    requires forall f :: f in descs && f in descs' ==> descs'[f] == descs[f]
    ensures SameFiles(descs, descs')
  {
  }

  lemma LockSteps(s: State, f: nat, lock: Lock)
    requires f in s.descs && Inv(Locked(s, f, lock))
    ensures FileStep(s, Locked(s, f, lock), {})
  {
    FilesLock(s.descs, f, lock);
  }

  lemma FilesLock(descs: Descs, f: nat, lock: Lock)
    requires f in descs
    ensures SameFiles(descs, descs[f := descs[f].(lock := lock)])
  {
  }

  lemma OpenSteps(s: State, h: Holder, f: nat, d: Desc, cloexec: bool)
    requires h !in s.cells && f !in s.descs && Inv(Opened(s, h, f, d, cloexec))
    ensures FileStep(s, Opened(s, h, f, d, cloexec), {})
  {
    FilesFewer(s.descs, s.descs[f := d]);
  }

  lemma PipeSteps(s: State, p: nat, r: nat, w: nat, hr: Holder, hw: Holder, cloexec: bool)
    requires hr !in s.cells && hw !in s.cells && r !in s.descs && w !in s.descs && r != w
    requires Inv(Piped(s, p, r, w, hr, hw, cloexec))
    ensures FileStep(s, Piped(s, p, r, w, hr, hw, cloexec), {})
  {
    FilesFewer(s.descs, Piped(s, p, r, w, hr, hw, cloexec).descs);
  }

  lemma Still(s: State)
    requires Inv(s)
    ensures FileStep(s, s, {})
  {
  }

  lemma StillHeld(s: State, f: nat)
    requires Inv(s)
    ensures f in s.descs && !s.descs[f].immortal ==> exists g :: g in s.cells && s.cells[g] == f
    ensures (exists g :: g in s.cells && s.cells[g] == f) ==> f in s.descs
  {
    if f in s.descs && !s.descs[f].immortal {
      assert |Holders(s.cells, f)| > 0;
      var g :| g in Holders(s.cells, f);
    }
  }

  ghost predicate FileRun(states: seq<State>, puts: seq<set<nat>>) {
    && |states| == |puts| + 1
    && forall i :: 0 <= i < |puts| ==> FileStep(states[i], states[i + 1], puts[i])
  }

  /** The reference `id` holds the open file `d`, description `f`. */
  ghost predicate Holding(s: State, id: nat, f: nat, d: Desc) {
    Flight(id) in s.cells && s.cells[Flight(id)] == f && f in s.descs && SameFile(d, s.descs[f])
  }

  lemma StepHolds(s: State, t: State, puts: set<nat>, id: nat, f: nat, d: Desc)
    requires FileStep(s, t, puts) && Holding(s, id, f, d) && id !in puts
    ensures Holding(t, id, f, d)
  {
    assert Flight(id) in t.cells && t.cells[Flight(id)] == f;
    StillHeld(t, f);
    assert SameFile(s.descs[f], t.descs[f]);
  }

  /**
   From its lookup until its put, whatever is closed, duplicated, cloned, transferred or
   opened in between and in whatever order, an operation holds one and the same open file:
   the description is not cleared and not handed out again.
   */
  lemma {:induction false} HeldUntilPut(states: seq<State>, puts: seq<set<nat>>, id: nat, f: nat, d: Desc)
    requires FileRun(states, puts) && Holding(states[0], id, f, d)
    requires forall i :: 0 <= i < |puts| ==> id !in puts[i]
    ensures forall i :: 0 <= i < |states| ==> Holding(states[i], id, f, d)
    decreases |puts|
  {
    if |puts| > 0 {
      var n := |puts| - 1;
      HeldUntilPut(states[..n + 1], puts[..n], id, f, d);
      assert Holding(states[..n + 1][n], id, f, d);
      StepHolds(states[n], states[n + 1], puts[n], id, f, d);
      forall i | 0 <= i < |states|
        ensures Holding(states[i], id, f, d)
      {
        assert i <= n ==> states[i] == states[..n + 1][i];
      }
    }
  }
}

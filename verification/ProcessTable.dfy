/**
 The process table: reserving and publishing slots, exit and adoption by the reaper, and
 collecting children (xscore/kernel/process.c).

 A wait in progress is the interval between the scan of `waitpid` and the moment it returns;
 other threads, of the same process too, run in between. A wait has three steps: the scan that
 chooses a child, the check that the child has exited or stopped, and the report, which reaps.
 */
module ProcessTable {
  import opened Bytes
  import opened Lineage

  const SLOTS: nat := 64

  // ---------- Waiting ----------

  /** A wait in progress: the waiting process, the child it has chosen, whether it may report, and whom it asked for. */
  datatype Wait = Wait(owner: nat, slot: nat, pid: nat, passed: bool, wanted: Option<nat>)

  /** Waits by the thread that waits. */
  type Waits = map<nat, Wait>

  /** The chosen child is the one asked for, and until somebody collects it, it is a child of the process that waits. */
  ghost predicate WaitOk(procs: seq<Proc>, collected: seq<nat>, w: Wait) {
    && w.owner != 0 && w.slot < |procs| && (w.wanted.Some? ==> w.pid == w.wanted.value)
    && (w.pid !in collected ==> Intact(procs[w.slot], w))
  }

  ghost predicate Intact(p: Proc, w: Wait) {
    p.pid == w.pid && Visible(p) && p.parent == w.owner && (w.passed ==> p.status == Exited || p.status == Stopped)
  }

  ghost predicate WaitsOk(procs: seq<Proc>, collected: seq<nat>, waits: Waits) {
    forall c :: c in waits ==> WaitOk(procs, collected, waits[c])
  }

  /** Whether two waits have chosen the same slot of the table, which is so if they have chosen the same child. */
  predicate Rivals(waits: Waits, c: nat, d: nat) {
    c in waits && d in waits && c != d && waits[c].slot == waits[d].slot
  }

  /** The disputed waits are known, and only a disputed child can be collected under a wait. */
  ghost predicate Disputes(waits: Waits, collected: seq<nat>, disputed: set<nat>) {
    && (forall c, d :: Rivals(waits, c, d) ==> c in disputed)
    && (forall c :: c in waits && waits[c].pid in collected ==> c in disputed)
  }

  /** Pids are collected once, and nobody collected is still around. */
  ghost predicate CollectedOnce(procs: seq<Proc>, collected: seq<nat>, next: nat) {
    && (forall k :: 0 <= k < |collected| ==> collected[k] < next)
    && (forall k, l :: 0 <= k < l < |collected| ==> collected[k] != collected[l])
    && (forall i :: 0 <= i < |procs| && (Visible(procs[i]) || procs[i].status == Allocating) ==>
      procs[i].pid !in collected)
  }

  /** A child is collected: no pid twice, and every other wait for it was disputed. */
  lemma CollectOne(procs: seq<Proc>, waits: Waits, disputed: set<nat>, collected: seq<nat>, next: nat, c: nat)
    requires Distinct(procs, next) && WaitsOk(procs, collected, waits) && CollectedOnce(procs, collected, next)
    requires Disputes(waits, collected, disputed)
    requires c in waits && waits[c].slot < |procs| && procs[waits[c].slot].status == Exited
    ensures var i := waits[c].slot;
      var t := procs[i := procs[i].(status := Reaped, parent := 0)];
      var more := collected + [procs[i].pid];
      && WaitsOk(t, more, waits - {c}) && CollectedOnce(t, more, next)
      && Distinct(t, next) && Disputes(waits - {c}, more, disputed)
  {
    var i := waits[c].slot;
    var t := procs[i := procs[i].(status := Reaped, parent := 0)];
    var more := collected + [procs[i].pid];
    forall d | d in waits - {c}
      ensures WaitOk(t, more, waits[d])
    {
      assert WaitOk(procs, collected, waits[d]);
    }
    forall j | 0 <= j < |t| && (Visible(t[j]) || t[j].status == Allocating)
      ensures t[j].pid !in more
    {
      assert j != i && t[j] == procs[j];
    }
    forall d | d in waits - {c} && waits[d].pid in more
      ensures d in disputed
    {
      if waits[d].pid == procs[i].pid {
        assert procs[i].pid !in collected && WaitOk(procs, collected, waits[d]);
        assert waits[d].slot == i;
        assert Rivals(waits, d, c);
      }
    }
    forall d, e | Rivals(waits - {c}, d, e)
      ensures d in disputed
    {
      assert Rivals(waits, d, e);
    }
  }

  /** The waits of a process that exits end with it. */
  function Without(waits: Waits, pid: nat): (r: Waits)
    ensures forall c :: c in r <==> c in waits && waits[c].owner != pid
    ensures forall c :: c in r ==> r[c] == waits[c]
  {
    map c | c in waits && waits[c].owner != pid :: waits[c]
  }

  lemma FewerDisputes(waits: Waits, fewer: Waits, collected: seq<nat>, disputed: set<nat>)
    requires Disputes(waits, collected, disputed)
    requires forall c :: c in fewer ==> c in waits && fewer[c].pid == waits[c].pid && fewer[c].slot == waits[c].slot
    ensures Disputes(fewer, collected, disputed)
  {
    forall c, d | Rivals(fewer, c, d)
      ensures c in disputed
    {
      assert Rivals(waits, c, d);
    }
  }

  lemma ExitKeepsWaits(procs: seq<Proc>, i: nat, adopter: nat, waits: Waits, collected: seq<nat>, next: nat)
    requires i < |procs| && Distinct(procs, next) && WaitsOk(procs, collected, waits)
    requires CollectedOnce(procs, collected, next) && Visible(procs[i])
    ensures var t := AfterExit(procs, i, adopter);
      WaitsOk(t, collected, Without(waits, procs[i].pid)) && CollectedOnce(t, collected, next) && Distinct(t, next)
  {
    var t := AfterExit(procs, i, adopter);
    forall d | d in Without(waits, procs[i].pid)
      ensures WaitOk(t, collected, waits[d])
    {
      assert WaitOk(procs, collected, waits[d]);
    }
  }

  /** Everything that the table keeps when a process exits. */
  lemma ExitKeeps(s: Snapshot, i: nat, waits: Waits, collected: seq<nat>, disputed: set<nat>)
    requires Sound(s) && Enabled(s, Exits(i)) && Disputes(waits, collected, disputed)
    requires WaitsOk(s.procs, collected, waits) && CollectedOnce(s.procs, collected, s.next)
    ensures var t, fewer := After(s, Exits(i)), Without(waits, s.procs[i].pid);
      && Sound(t) && WaitsOk(t.procs, collected, fewer) && CollectedOnce(t.procs, collected, t.next)
      && Disputes(fewer, collected, disputed)
      && (LiveParents(s.procs) ==> (LiveParents(t.procs) <==> t.procs[i].parent != t.procs[i].pid))
  {
    var heir := Heir(s, s.procs[i].pid);
    StaysSound(s, Exits(i));
    ExitKeepsWaits(s.procs, i, heir, waits, collected, s.next);
    FewerDisputes(waits, Without(waits, s.procs[i].pid), collected, disputed);
    if LiveParents(s.procs) {
      ExitKeepsParents(s.procs, i, heir, s.next);
    }
  }

  lemma ReaperKeepsWaits(procs: seq<Proc>, i: nat, pid: nat, waits: Waits, collected: seq<nat>, next: nat)
    requires Distinct(procs, next) && WaitsOk(procs, collected, waits) && CollectedOnce(procs, collected, next)
    ensures var t := Adopted(procs, i, 0, pid);
      WaitsOk(t, collected, waits) && CollectedOnce(t, collected, next) && Distinct(t, next)
  {
    var t := Adopted(procs, i, 0, pid);
    forall d | d in waits
      ensures WaitOk(t, collected, waits[d])
    {
      assert WaitOk(procs, collected, waits[d]);
    }
  }

  lemma SlotKeepsWaits(procs: seq<Proc>, i: nat, p: Proc, waits: Waits, collected: seq<nat>)
    requires i < |procs| && WaitsOk(procs, collected, waits) && !Visible(procs[i])
    ensures WaitsOk(procs[i := p], collected, waits)
  {
    forall d | d in waits
      ensures WaitOk(procs[i := p], collected, waits[d])
    {
      assert WaitOk(procs, collected, waits[d]);
    }
  }

  /** The waits in progress that have chosen the slot. */
  ghost function Choosing(waits: Waits, slot: nat): set<nat> {
    set c | c in waits && waits[c].slot == slot
  }

  /** Who is disputed once a further wait has chosen the slot. */
  ghost function Disputed(disputed: set<nat>, waits: Waits, thread: nat, slot: nat): set<nat> {
    disputed - {thread} + Choosing(waits, slot) + if Choosing(waits, slot) == {} then {} else {thread}
  }

  lemma NewWait(procs: seq<Proc>, waits: Waits, disputed: set<nat>, collected: seq<nat>, thread: nat, w: Wait)
    requires WaitsOk(procs, collected, waits) && Disputes(waits, collected, disputed) && thread !in waits
    requires w.pid !in collected
    requires WaitOk(procs, collected, w)
    ensures WaitsOk(procs, collected, waits[thread := w])
    ensures Disputes(waits[thread := w], collected, Disputed(disputed, waits, thread, w.slot))
  {
    var more, now := waits[thread := w], Disputed(disputed, waits, thread, w.slot);
    forall c, d | Rivals(more, c, d)
      ensures c in now
    {
      if c != thread && d != thread {
        assert Rivals(waits, c, d);
      } else if c == thread {
        assert d in Choosing(waits, w.slot);
      } else {
        assert c in Choosing(waits, w.slot);
      }
    }
  }

  const EMPTY: seq<Proc> := seq(SLOTS, _ => Proc(Unused, 0, 0))

  datatype Found = NoChild | NotYet | Chosen(slot: nat)

  datatype Checked = Gone | Blocked | Passed

  predicate Matches(p: Proc, caller: nat, wanted: Option<nat>) {
    Visible(p) && p.parent == caller && (wanted.None? || p.pid == wanted.value)
  }

  class Table {
    var procs: array<Proc>
    var next: nat
    var reaper: nat
    var waits: Waits
    /** The pids that have been reaped, in order. */
    ghost var collected: seq<nat>
    /** The waits whose child another wait has chosen as well, while both were in progress. */
    ghost var disputed: set<nat>

    ghost function Snap(): Snapshot
      reads this, procs
    {
      Snapshot(procs[..], reaper, next)
    }

    ghost predicate Valid()
      reads this, procs
    {
      && procs.Length == SLOTS && Sound(Snap())
      && WaitsOk(procs[..], collected, waits) && CollectedOnce(procs[..], collected, next)
      && Disputes(waits, collected, disputed)
    }

    constructor ()
      ensures Valid() && Orderly(Snap()) && waits == map[] && collected == [] && next == 1 && reaper == 0
      ensures fresh(procs)
      ensures forall i :: 0 <= i < SLOTS ==> procs[i] == Proc(Unused, 0, 0)
    {
      procs := new Proc[SLOTS](_ => Proc(Unused, 0, 0));
      next, reaper, waits, collected, disputed := 1, 0, map[], [], {};
    }

    method Put(i: nat, p: Proc)
      requires i < procs.Length
      modifies procs
      ensures procs[..] == old(procs[..])[i := p]
    {
      procs[i] := p;
    }

    /** `process_slot_reserve`, for a child of `parent`: a pid that no process ever had. */
    method Reserve(parent: nat) returns (slot: Option<nat>)
      requires Valid()
      modifies this`next, procs
      ensures Valid() && (old(LiveParents(procs[..])) ==> LiveParents(procs[..]))
      ensures slot.None? ==> procs[..] == old(procs[..]) && next == old(next)
      ensures slot.Some? ==> slot.value < SLOTS && Vacant(old(procs[..])[slot.value])
      ensures forall j :: 0 <= j < (if slot.Some? then slot.value else SLOTS) ==> !Vacant(old(procs[..])[j])
      ensures slot.Some? <==> exists j :: 0 <= j < SLOTS && old(procs[..])[j].status in {Unused, Reaped}
      ensures slot.Some? ==> Snap() == After(old(Snap()), Reserves(slot.value, parent))
      ensures slot.Some? ==> procs[slot.value] == Proc(Allocating, old(next), parent) && next == old(next) + 1
    {
      var i := 0;
      while i < SLOTS && !Vacant(procs[i])
        invariant i <= SLOTS && forall j :: 0 <= j < i ==> !Vacant(procs[..][j])
      {
        i := i + 1;
      }
      if i == SLOTS {
        return None;
      }
      ghost var before := procs[..];
      SlotKeepsWaits(before, i, Proc(Allocating, next, parent), waits, collected);
      if LiveParents(before) {
        SlotKeepsParents(before, i, Proc(Allocating, next, parent));
      }
      StaysSound(Snap(), Reserves(i, parent));
      Put(i, Proc(Allocating, next, parent));
      next := next + 1;
      return Some(i);
    }

    /** `process_slot_publish`: the links stay alive if and only if the parent is still alive. */
    method Publish(i: nat)
      requires Valid() && i < SLOTS && procs[i].status == Allocating
      modifies procs
      ensures Valid() && Snap() == After(old(Snap()), Publishes(i))
      ensures procs[..] == old(procs[..])[i := old(procs[i]).(status := Ready)]
      ensures old(LiveParents(procs[..])) ==>
        (LiveParents(procs[..]) <==> procs[i].parent == 0 || HasLive(procs[..], procs[i].parent))
    {
      ghost var before := procs[..];
      SlotKeepsWaits(before, i, before[i].(status := Ready), waits, collected);
      if LiveParents(before) {
        SlotKeepsParents(before, i, before[i].(status := Ready));
      }
      StaysSound(Snap(), Publishes(i));
      Put(i, procs[i].(status := Ready));
    }

    /** `process_slot_release`: a process that could not be made. */
    method Release(i: nat)
      requires Valid() && i < SLOTS && procs[i].status == Allocating
      modifies procs
      ensures Valid() && Snap() == After(old(Snap()), Releases(i))
      ensures procs[..] == old(procs[..])[i := old(procs[i]).(status := Unused)]
    {
      ghost var before := procs[..];
      SlotKeepsWaits(before, i, before[i].(status := Unused), waits, collected);
      StaysSound(Snap(), Releases(i));
      Put(i, procs[i].(status := Unused));
    }

    /** Gives the visible children of `from`, except the process at `skip`, to `adopter`. */
    method Adopt(skip: nat, from: nat, adopter: nat)
      requires procs.Length == SLOTS
      modifies procs
      ensures procs[..] == Adopted(old(procs[..]), skip, from, adopter)
    {
      ghost var before := procs[..];
      ghost var after := Adopted(before, skip, from, adopter);
      var i := 0;
      while i < SLOTS
        invariant i <= SLOTS
        invariant forall j :: 0 <= j < i ==> procs[j] == after[j]
        invariant forall j :: i <= j < SLOTS ==> procs[j] == before[j]
      {
        if i != skip && Visible(procs[i]) && procs[i].parent == from {
          procs[i] := procs[i].(parent := adopter);
        }
        i := i + 1;
      }
    }

    /** `set_reaper`. */
    method SetReaper(i: nat) returns (ok: bool)
      requires Valid() && i < SLOTS
      modifies this`reaper, procs
      ensures Valid() && ok == (procs[i].pid != 0 && Alive(old(procs[i])))
      ensures ok <==> old(procs[i]).pid != 0 && old(procs[i]).status in {Ready, Running, Stopped}
      ensures ok ==> Snap() == After(old(Snap()), Reigns(i))
      ensures ok ==> reaper == old(procs[i].pid) && forall j :: 0 <= j < SLOTS ==> procs[j] == old(procs[..])[j].(
        parent := if j != i && old(procs[..])[j].status in {Ready, Running, Stopped, Exited}
                     && old(procs[..])[j].parent == 0 then reaper else old(procs[..])[j].parent)
      ensures !ok ==> reaper == old(reaper) && procs[..] == old(procs[..])
      ensures old(LiveParents(procs[..])) ==> LiveParents(procs[..])
    {
      ok := procs[i].pid != 0 && Alive(procs[i]);
      if ok {
        ghost var before := procs[..];
        ReaperKeepsWaits(before, i, before[i].pid, waits, collected, next);
        if LiveParents(before) {
          ReaperKeepsParents(before, i);
        }
        StaysSound(Snap(), Reigns(i));
        reaper := procs[i].pid;
        Adopt(i, 0, reaper);
      }
    }

    /** Who adopts the orphans of a process that exits: the reaper, if it is another living process. */
    method Adopter(pid: nat) returns (adopter: nat)
      requires Valid()
      ensures adopter == Heir(Snap(), pid)
    {
      adopter := 0;
      if reaper == 0 || reaper == pid {
        return;
      }
      var i := 0;
      while i < SLOTS && procs[i].pid != reaper
        invariant i <= SLOTS && forall j :: 0 <= j < i ==> procs[j].pid != reaper
      {
        i := i + 1;
      }
      ghost var all := procs[..];
      ghost var j :| 0 <= j < |all| && all[j].pid == reaper && Alive(all[j]);
      assert all[i].pid == all[j].pid;
      if Alive(procs[i]) {
        adopter := reaper;
      }
    }

    /**
     `process_mark_exited`: orphans are adopted in the same step, and every parent link stays
     alive if and only if the process was not its own parent.
     */
    method MarkExited(i: nat)
      requires Valid() && i < SLOTS && Visible(procs[i]) && procs[i].pid != 0
      modifies this`reaper, this`waits, procs
      ensures Valid() && Snap() == After(old(Snap()), Exits(i))
      ensures old(LiveParents(procs[..])) ==> (LiveParents(procs[..]) <==> procs[i].parent != procs[i].pid)
      ensures waits == Without(old(waits), old(procs[i].pid))
      ensures reaper == if old(reaper) == old(procs[i].pid) then 0 else old(reaper)
      ensures procs[i] == old(procs[i]).(status := Exited)
      ensures forall j :: 0 <= j < SLOTS && j != i ==> procs[j] == old(procs[..])[j].(
        parent := if old(procs[..])[j].status in {Ready, Running, Stopped, Exited}
                     && old(procs[..])[j].parent == old(procs[i].pid) then reaper else old(procs[..])[j].parent)
    {
      ghost var before := Snap();
      var pid := procs[i].pid;
      var heir := Adopter(pid);
      ExitKeeps(before, i, waits, collected, disputed);
      Leave(i, heir);
      assert Snap() == After(before, Exits(i));
      waits := Without(waits, pid);
    }

    /** The orphans change hands and the process becomes a zombie. */
    method Leave(i: nat, heir: nat)
      requires procs.Length == SLOTS && i < SLOTS
      modifies this`reaper, procs
      ensures procs[..] == AfterExit(old(procs[..]), i, heir)
      ensures reaper == if old(reaper) == old(procs[i].pid) then 0 else old(reaper)
    {
      var p := procs[i];
      if reaper == p.pid {
        reaper := 0;
      }
      Adopt(i, p.pid, heir);
      Put(i, p.(status := Exited));
    }

    /**
     The scan of `waitpid`: it fails only when there is no such child, and it prefers a child
     that has exited or stopped. Nothing keeps another thread from choosing the same child.
     */
    method SelectChild(thread: nat, caller: nat, wanted: Option<nat>, nohang: bool) returns (found: Found)
      requires Valid() && caller != 0 && thread !in waits
      modifies this`waits, this`disputed
      ensures Valid()
      ensures found == NoChild <==> forall i :: 0 <= i < SLOTS ==> !Matches(procs[i], caller, wanted)
      ensures found.Chosen? ==> found.slot < SLOTS && Matches(procs[found.slot], caller, wanted)
      ensures found.Chosen? ==> var p := procs[found.slot];
        && p.status in {Ready, Running, Stopped, Exited} && p.parent == caller
        && (wanted.Some? ==> p.pid == wanted.value)
      ensures forall i ::
        && 0 <= i < SLOTS && procs[i].status in {Ready, Running, Stopped, Exited} && procs[i].parent == caller
        && (wanted.None? || wanted == Some(procs[i].pid)) ==>
          found != NoChild && (wanted.Some? ==> found == NotYet || found == Chosen(i))
      ensures found == NotYet ==> nohang && forall i ::
        0 <= i < SLOTS && Matches(procs[i], caller, wanted) ==> procs[i].status == Ready || procs[i].status == Running
      ensures found.Chosen? && nohang ==> procs[found.slot].status == Exited || procs[found.slot].status == Stopped
      ensures (exists i :: 0 <= i < SLOTS && Matches(procs[i], caller, wanted) && procs[i].status == Exited) ==>
        found.Chosen? && (procs[found.slot].status == Exited || procs[found.slot].status == Stopped)
      ensures waits == if found.Chosen?
        then old(waits)[thread := Wait(caller, found.slot, procs[found.slot].pid, false, wanted)] else old(waits)
      ensures disputed == if found.Chosen? then Disputed(old(disputed), old(waits), thread, found.slot)
        else old(disputed)
    {
      found := NoChild;
      var i := 0;
      while i < SLOTS && !(found.Chosen? && (procs[found.slot].status == Exited || procs[found.slot].status == Stopped))
        invariant i <= SLOTS && found != NotYet
        invariant found == NoChild ==> forall j :: 0 <= j < i ==> !Matches(procs[j], caller, wanted)
        invariant found.Chosen? ==> found.slot < SLOTS && Matches(procs[found.slot], caller, wanted)
        invariant found.Chosen? && procs[found.slot].status != Exited && procs[found.slot].status != Stopped ==>
          forall j :: 0 <= j < i && Matches(procs[j], caller, wanted) ==>
            procs[j].status != Exited && procs[j].status != Stopped
      {
        if Matches(procs[i], caller, wanted) {
          if procs[i].status == Exited || procs[i].status == Stopped || found == NoChild {
            found := Chosen(i);
          }
        }
        i := i + 1;
      }
      if found.Chosen? {
        ghost var chosen := found.slot;
        forall j | 0 <= j < SLOTS && Matches(procs[j], caller, wanted) && wanted.Some?
          ensures j == chosen
        {
          assert procs[..][j].pid == procs[..][chosen].pid;
        }
        if nohang && procs[found.slot].status != Exited && procs[found.slot].status != Stopped {
          return NotYet;
        }
        var w := Wait(caller, found.slot, procs[found.slot].pid, false, wanted);
        ghost var before := procs[..];
        assert before[found.slot].pid !in collected;
        NewWait(before, waits, disputed, collected, thread, w);
        disputed := Disputed(disputed, waits, thread, w.slot);
        waits := waits[thread := w];
      }
    }

    /** A wait is over. */
    method Forget(thread: nat)
      requires Valid()
      modifies this`waits
      ensures Valid() && waits == old(waits) - {thread}
    {
      FewerDisputes(waits, waits - {thread}, collected, disputed);
      waits := waits - {thread};
    }

    /** The check of `xscore_process_wait`: the wait is over, or still blocked, or may report. */
    method CheckChild(thread: nat) returns (r: Checked)
      requires Valid() && thread in waits
      modifies this`waits
      ensures Valid()
      ensures var w := old(waits)[thread]; w.slot < SLOTS && (w.pid !in collected ==> r != Gone)
      ensures var w := old(waits)[thread]; r == Gone ==> waits == old(waits) - {thread}
      ensures var w := old(waits)[thread]; r == Blocked ==> waits == old(waits) && Alive(procs[w.slot])
      ensures var w := old(waits)[thread]; r == Passed <==>
        procs[w.slot].status == Exited || procs[w.slot].status == Stopped
      ensures var w := old(waits)[thread]; r == Passed ==> waits == old(waits)[thread := w.(passed := true)]
    {
      var w := waits[thread];
      ghost var before := procs[..];
      assert WaitOk(before, collected, w) && before[w.slot] == procs[w.slot];
      if !Visible(procs[w.slot]) {
        Forget(thread);
        return Gone;
      }
      if procs[w.slot].status != Exited && procs[w.slot].status != Stopped {
        return Blocked;
      }
      FewerDisputes(waits, waits[thread := w.(passed := true)], collected, disputed);
      waits := waits[thread := w.(passed := true)];
      return Passed;
    }

    /** `process_reap` of an exited child that a wait has chosen. */
    method Reap(thread: nat, w: Wait)
      requires Valid() && thread in waits && waits[thread] == w && w.slot < SLOTS && procs[w.slot].status == Exited
      modifies this`waits, this`collected, procs
      ensures Valid() && waits == old(waits) - {thread}
      ensures collected == old(collected) + [old(procs[w.slot].pid)] && old(procs[w.slot].pid) !in old(collected)
      ensures Snap() == After(old(Snap()), Collected(w.slot))
      ensures old(LiveParents(procs[..])) ==> LiveParents(procs[..])
    {
      ghost var before := procs[..];
      assert before[w.slot] == procs[w.slot];
      CollectOne(before, waits, disputed, collected, next, thread);
      if LiveParents(before) {
        SlotKeepsParents(before, w.slot, before[w.slot].(status := Reaped, parent := 0));
      }
      StaysSound(Snap(), Collected(w.slot));
      collected := collected + [procs[w.slot].pid];
      Put(w.slot, procs[w.slot].(status := Reaped, parent := 0));
      waits := waits - {thread};
    }

    /**
     The end of `waitpid`. The child is reported to its parent, and its pid has never been
     collected before, if and only if no other thread has collected it since it was chosen. That
     can only have happened to a wait whose slot another wait had chosen as well; it then reports
     the collected pid again, or whoever has the slot by now.
     */
    method Report(thread: nat) returns (pid: nat, ghost proper: bool)
      requires Valid() && thread in waits && waits[thread].passed
      modifies this`waits, this`collected, procs
      ensures Valid() && waits == old(waits) - {thread}
      ensures var w := old(waits)[thread]; w.slot < SLOTS && pid == old(procs[w.slot].pid)
      ensures proper <==> old(waits)[thread].pid !in old(collected)
      ensures !proper ==> thread in old(disputed)
      ensures proper ==> var w := old(waits)[thread]; pid == w.pid && old(procs[w.slot].parent) == w.owner
      ensures proper ==> var w := old(waits)[thread]; w.wanted.Some? ==> pid == w.wanted.value
      ensures var w := old(waits)[thread];
        if old(procs[w.slot].status) == Exited
        then collected == old(collected) + [pid] && pid !in old(collected)
             && procs[..] == old(procs[..])[w.slot := old(procs[w.slot]).(status := Reaped, parent := 0)]
        else collected == old(collected) && procs[..] == old(procs[..])
      ensures proper ==>
        var w := old(waits)[thread]; old(procs[w.slot].status) == Exited || old(procs[w.slot].status) == Stopped
      ensures old(LiveParents(procs[..])) ==> LiveParents(procs[..])
    {
      var w := waits[thread];
      ghost var before := procs[..];
      assert WaitOk(before, collected, w) && before[w.slot] == procs[w.slot];
      proper := w.pid !in collected;
      pid := procs[w.slot].pid;
      if procs[w.slot].status == Exited {
        Reap(thread, w);
        return;
      }
      Forget(thread);
    }
  }

  /** A child of the caller that has exited or stopped, with the pid if one is given. */
  predicate EndedChild(p: Proc, caller: nat, wanted: Option<nat>) {
    p.status in {Exited, Stopped} && p.parent == caller && (wanted.Some? ==> p.pid == wanted.value)
  }

  /** What a wait leaves behind that has reported the process in slot `i`. */
  ghost predicate Collects(procs: seq<Proc>, procs': seq<Proc>, collected: seq<nat>, collected': seq<nat>, i: nat) {
    && i < |procs|
    && if procs[i].status == Exited
       then collected' == collected + [procs[i].pid] && procs' == procs[i := Proc(Reaped, procs[i].pid, 0)]
       else collected' == collected && procs' == procs
  }

  /** The rest of a wait that no other thread interrupts. */
  method Finish(t: Table, thread: nat) returns (pid: nat)
    requires t.Valid() && thread in t.waits && t.waits[thread].pid !in t.collected && t.waits[thread].slot < SLOTS
    requires t.procs[t.waits[thread].slot].status in {Exited, Stopped}
    modifies t`waits, t`collected, t.procs
    ensures t.Valid() && t.waits == old(t.waits) - {thread} && pid == old(t.waits)[thread].pid
    ensures Collects(old(t.procs[..]), t.procs[..], old(t.collected), t.collected, old(t.waits)[thread].slot)
  {
    var checked := t.CheckChild(thread);
    ghost var proper;
    pid, proper := t.Report(thread);
  }

  /**
   A whole `waitpid` that does not hang and that no other thread interrupts: a child is reported
   exactly when one of those asked for has exited or stopped, it is the one asked for, and one that
   has exited is collected.
   */
  method WaitNow(t: Table, thread: nat, caller: nat, wanted: Option<nat>) returns (r: Option<nat>, ghost i: nat)
    requires t.Valid() && caller != 0 && thread !in t.waits
    modifies t, t.procs
    ensures t.Valid() && t.waits == old(t.waits) && t.procs == old(t.procs)
    ensures r.Some? <==> exists j :: 0 <= j < SLOTS && EndedChild(old(t.procs[..])[j], caller, wanted)
    ensures r.Some? ==>
      && i < SLOTS && EndedChild(old(t.procs[..])[i], caller, r)
      && Collects(old(t.procs[..]), t.procs[..], old(t.collected), t.collected, i)
    ensures r.Some? && wanted.Some? ==> r == wanted
    ensures r.None? ==> t.procs[..] == old(t.procs[..]) && t.collected == old(t.collected)
  {
    ghost var before := t.procs[..];
    var found := t.SelectChild(thread, caller, wanted, true);
    i := 0;
    if !found.Chosen? {
      assert forall j :: 0 <= j < SLOTS ==> before[j] == t.procs[j];
      return None, 0;
    }
    i := found.slot;
    assert EndedChild(before[i], caller, wanted);
    assert before[i].pid !in t.collected;
    var pid := Finish(t, thread);
    return Some(pid), i;
  }

  /** Two waits that have chosen the same exited child, and have both been let through, both report it. */
  method BothReport(t: Table, c: nat, d: nat) returns (first: nat, second: nat)
    requires t.Valid() && Rivals(t.waits, c, d) && t.waits[c].pid == t.waits[d].pid && t.waits[c].pid !in t.collected
    requires t.waits[c].passed && t.waits[d].passed && t.waits[c].slot < SLOTS
    requires t.procs[t.waits[c].slot].status == Exited
    modifies t, t.procs
    ensures t.Valid() && first == second == old(t.waits)[c].pid
    ensures t.collected == old(t.collected) + [first]
  {
    ghost var proper, proper';
    first, proper := t.Report(c);
    second, proper' := t.Report(d);
  }

  /** A table with one process. */
  method Single() returns (t: Table)
    ensures fresh(t) && fresh(t.procs) && t.Valid() && t.waits == map[] && t.collected == [] && t.next == 2
    ensures t.procs[..] == EMPTY[0 := Proc(Ready, 1, 0)]
  {
    t := new Table();
    assert t.procs[..] == EMPTY && Vacant(EMPTY[0]);
    var mother := t.Reserve(0);
    assert mother == Some(0);
    t.Publish(0);
  }

  /** A second process is in the making. */
  method Expecting() returns (t: Table)
    ensures fresh(t) && fresh(t.procs) && t.Valid() && t.waits == map[] && t.collected == []
    ensures t.procs[..] == EMPTY[0 := Proc(Ready, 1, 0)][1 := Proc(Allocating, 2, 1)]
  {
    t := Single();
    ghost var one := t.procs[..];
    assert !Vacant(one[0]) && Vacant(one[1]);
    var child := t.Reserve(1);
    assert child == Some(1);
  }

  /** A process with one child. */
  method Couple() returns (t: Table)
    ensures fresh(t) && fresh(t.procs) && t.Valid() && t.waits == map[] && t.collected == []
    ensures t.procs[..] == EMPTY[0 := Proc(Ready, 1, 0)][1 := Proc(Ready, 2, 1)]
  {
    t := Expecting();
    ghost var two := t.procs[..];
    assert two[1] == Proc(Allocating, 2, 1);
    t.Publish(1);
  }

  /**
   The child becomes the reaper, its parent exits, then the child: a zombie stays behind whose
   parent is itself, so that nobody can ever collect it.
   */
  method OrphanedReaper() returns (t: Table)
    ensures t.Valid() && t.procs[1] == Proc(Exited, 2, 2) && !LiveParents(t.procs[..])
  {
    t := Couple();
    ghost var two := t.Snap();
    var ok := t.SetReaper(1);
    ghost var reigns := t.Snap();
    assert reigns.procs[0] == Proc(Ready, 1, 2) && reigns.procs[1] == Proc(Ready, 2, 1);
    t.MarkExited(0);
    ghost var alone := t.Snap();
    assert alone.procs[1] == Proc(Ready, 2, 2);
    OwnParentDies(alone, 1);
    t.MarkExited(1);
    ghost var done := t.Snap();
    assert done.procs[1] == Proc(Exited, 2, 2);
  }

  /** A child that is published after its parent has exited. */
  method LatePublish() returns (t: Table)
    ensures t.Valid() && t.procs[1] == Proc(Ready, 2, 1) && !LiveParents(t.procs[..])
  {
    t := Bereaved();
    ghost var gone := t.procs[..];
    assert gone[1] == Proc(Allocating, 2, 1);
    t.Publish(1);
    NobodyLives(t.procs[..]);
  }

  /** A process in the making whose parent has exited. */
  method Bereaved() returns (t: Table)
    ensures fresh(t) && fresh(t.procs) && t.Valid()
    ensures t.procs[..] == EMPTY[0 := Proc(Exited, 1, 0)][1 := Proc(Allocating, 2, 1)]
  {
    t := Expecting();
    ghost var two := t.Snap();
    assert two.procs[0] == Proc(Ready, 1, 0);
    MotherExits(two);
    t.MarkExited(0);
  }

  lemma MotherExits(s: Snapshot)
    requires s.procs == EMPTY[0 := Proc(Ready, 1, 0)][1 := Proc(Allocating, 2, 1)]
    ensures After(s, Exits(0)).procs == EMPTY[0 := Proc(Exited, 1, 0)][1 := Proc(Allocating, 2, 1)]
  {
  }

  lemma NobodyLives(procs: seq<Proc>)
    requires procs == EMPTY[0 := Proc(Exited, 1, 0)][1 := Proc(Ready, 2, 1)]
    ensures procs[1] == Proc(Ready, 2, 1) && !LiveParents(procs)
  {
    assert procs[1] == Proc(Ready, 2, 1);
  }

  /** A process with one child, which has exited. */
  method Family() returns (t: Table)
    ensures fresh(t) && fresh(t.procs) && t.Valid() && t.waits == map[] && t.collected == []
    ensures t.procs[0] == Proc(Ready, 1, 0) && t.procs[1] == Proc(Exited, 2, 1)
    ensures forall i :: 2 <= i < SLOTS ==> t.procs[i].status == Unused
  {
    t := Couple();
    ghost var two := t.procs[..];
    t.MarkExited(1);
    ghost var all := t.procs[..];
    assert all[0] == two[0] && all[1] == Proc(Exited, 2, 1);
    forall i | 2 <= i < SLOTS
      ensures t.procs[i].status == Unused
    {
      assert all[i] == two[i];
    }
  }

  /** One process with one exited child and two threads that wait for any child: both are told the same pid. */
  method TwoThreads() returns (first: nat, second: nat)
    ensures first == second == 2
  {
    var t := Family();
    ChooseOnlyChild(t, 10);
    ChooseOnlyChild(t, 11);
    var a := t.CheckChild(10);
    var b := t.CheckChild(11);
    first, second := BothReport(t, 10, 11);
  }

  /** A thread of the only process chooses its only child. */
  method ChooseOnlyChild(t: Table, thread: nat)
    requires t.Valid() && t.procs[1] == Proc(Exited, 2, 1) && thread !in t.waits
    requires forall i :: 0 <= i < SLOTS && i != 1 ==> !Matches(t.procs[i], 1, None)
    modifies t`waits, t`disputed
    ensures t.Valid() && t.waits == old(t.waits)[thread := Wait(1, 1, 2, false, None)]
  {
    assert Matches(t.procs[1], 1, None);
    var found := t.SelectChild(thread, 1, None, false);
  }
}

/**
 Who is whose parent in the process table: what each operation on the table does to the links,
 and when every parent stays alive over a whole run (xscore/kernel/process.c).
 */
module Lineage {
  import opened Bytes

  datatype Status = Unused | Allocating | Ready | Running | Stopped | Exited | Reaped

  /** A pid of 0 marks a slot that was never used; a parent of 0 means none. */
  datatype Proc = Proc(status: Status, pid: nat, parent: nat)

  predicate Visible(p: Proc) {
    p.status == Ready || p.status == Running || p.status == Stopped || p.status == Exited
  }

  predicate Alive(p: Proc) {
    p.status == Ready || p.status == Running || p.status == Stopped
  }

  /** Some living process has this pid. */
  ghost predicate HasLive(procs: seq<Proc>, pid: nat) {
    exists i :: 0 <= i < |procs| && procs[i].pid == pid && Alive(procs[i])
  }

  /** Every visible process has a living parent, or none. */
  ghost predicate LiveParents(procs: seq<Proc>) {
    forall i :: 0 <= i < |procs| && Visible(procs[i]) && procs[i].parent != 0 ==> HasLive(procs, procs[i].parent)
  }

  /** No pid is in use twice, and none will be handed out again. */
  ghost predicate Distinct(procs: seq<Proc>, next: nat) {
    && next > 0
    && (forall i :: 0 <= i < |procs| ==> procs[i].pid < next)
    && (forall i :: 0 <= i < |procs| && procs[i].pid == 0 ==> procs[i].status == Unused)
    && (forall i, j :: 0 <= i < j < |procs| && procs[i].pid != 0 ==> procs[i].pid != procs[j].pid)
  }

  // ---------- Adoption and exit ----------

  predicate Vacant(p: Proc) {
    p.status == Unused || p.status == Reaped
  }

  /** All visible children of `from`, except the process at `skip`, get the parent `adopter`. */
  function Adopted(procs: seq<Proc>, skip: nat, from: nat, adopter: nat): (r: seq<Proc>)
    ensures |r| == |procs|
  {
    seq(|procs|, i requires 0 <= i < |procs| =>
      if i != skip && Visible(procs[i]) && procs[i].parent == from then procs[i].(parent := adopter) else procs[i])
  }

  /** `process_mark_exited`: orphans go to the adopter, then the process is a zombie. */
  function AfterExit(procs: seq<Proc>, i: nat, adopter: nat): (r: seq<Proc>)
    requires i < |procs|
    ensures |r| == |procs|
  {
    Adopted(procs, i, procs[i].pid, adopter)[i := procs[i].(status := Exited)]
  }

  lemma LiveAfterExit(procs: seq<Proc>, i: nat, adopter: nat, next: nat, p: nat)
    requires i < |procs| && Distinct(procs, next) && p != 0
    ensures HasLive(AfterExit(procs, i, adopter), p) <==> HasLive(procs, p) && p != procs[i].pid
  {
    var t := AfterExit(procs, i, adopter);
    if HasLive(procs, p) && p != procs[i].pid {
      var j :| 0 <= j < |procs| && procs[j].pid == p && Alive(procs[j]);
      assert t[j].pid == p && Alive(t[j]);
    }
    if HasLive(t, p) {
      var j :| 0 <= j < |t| && t[j].pid == p && Alive(t[j]);
      assert procs[j].pid == p && Alive(procs[j]);
    }
  }

  /** Exit keeps every parent link alive if and only if the process was not its own parent. */
  lemma ExitKeepsParents(procs: seq<Proc>, i: nat, adopter: nat, next: nat)
    requires i < |procs| && Distinct(procs, next) && LiveParents(procs) && Visible(procs[i]) && procs[i].pid != 0
    requires adopter == 0 || (adopter != procs[i].pid && HasLive(procs, adopter))
    ensures LiveParents(AfterExit(procs, i, adopter)) <==> procs[i].parent != procs[i].pid
  {
    var t := AfterExit(procs, i, adopter);
    forall j | 0 <= j < |t| && Visible(t[j]) && t[j].parent != 0 && procs[i].parent != procs[i].pid
      ensures HasLive(t, t[j].parent)
    {
      LiveAfterExit(procs, i, adopter, next, t[j].parent);
    }
    assert Visible(t[i]) && t[i].parent == procs[i].parent;
    LiveAfterExit(procs, i, adopter, next, procs[i].pid);
  }

  /** A process becomes its own parent exactly when it is the reaper and its parent exits. */
  lemma OwnParent(procs: seq<Proc>, i: nat, adopter: nat, r: nat)
    requires i < |procs| && r < |procs| && r != i && procs[r].parent != procs[r].pid
    ensures AfterExit(procs, i, adopter)[r].parent == procs[r].pid <==>
      Visible(procs[r]) && procs[r].parent == procs[i].pid && adopter == procs[r].pid
  {
  }

  /** A new reaper takes over every process without a parent. */
  lemma ReaperKeepsParents(procs: seq<Proc>, i: nat)
    requires i < |procs| && LiveParents(procs) && Alive(procs[i])
    ensures LiveParents(Adopted(procs, i, 0, procs[i].pid))
  {
    var t := Adopted(procs, i, 0, procs[i].pid);
    forall j | 0 <= j < |t| && Visible(t[j]) && t[j].parent != 0
      ensures HasLive(t, t[j].parent)
    {
      if procs[j].parent == 0 && j != i {
        assert t[i].pid == procs[i].pid && Alive(t[i]);
      } else {
        var k :| 0 <= k < |procs| && procs[k].pid == procs[j].parent && Alive(procs[k]);
        assert t[k].pid == t[j].parent && Alive(t[k]);
      }
    }
  }

  /** A slot that is reserved, released or published. */
  lemma SlotKeepsParents(procs: seq<Proc>, i: nat, p: Proc)
    requires i < |procs| && LiveParents(procs) && !Alive(procs[i])
    ensures LiveParents(procs[i := p]) <==> !Visible(p) || p.parent == 0 || HasLive(procs[i := p], p.parent)
  {
    var t := procs[i := p];
    forall j | 0 <= j < |t| && j != i && Visible(t[j]) && t[j].parent != 0
      ensures HasLive(t, t[j].parent)
    {
      var k :| 0 <= k < |procs| && procs[k].pid == procs[j].parent && Alive(procs[k]);
      assert t[k].pid == t[j].parent && Alive(t[k]);
    }
    assert t[i] == p;
  }

  // ---------- Runs ----------

  /** What a run of the table changes: the slots, the reaper (0 for none) and the next pid. */
  datatype Snapshot = Snapshot(procs: seq<Proc>, reaper: nat, next: nat)

  /** No pid twice, and the reaper is alive: it gives up its office when it exits. */
  ghost predicate Sound(s: Snapshot) {
    Distinct(s.procs, s.next) && (s.reaper != 0 ==> HasLive(s.procs, s.reaper))
  }

  /** The operations on the table, each on the process in one slot. */
  datatype Op =
    | Reserves(i: nat, parent: nat)
    | Releases(i: nat)
    | Publishes(i: nat)
    | Resumes(i: nat, status: Status)
    | Reigns(i: nat)
    | Exits(i: nat)
    | Collected(i: nat)

  predicate Enabled(s: Snapshot, op: Op) {
    && op.i < |s.procs|
    && match op
       case Reserves(i, _) => Vacant(s.procs[i])
       case Releases(i) => s.procs[i].status == Allocating
       case Publishes(i) => s.procs[i].status == Allocating
       case Resumes(i, status) => Alive(s.procs[i]) && (status == Ready || status == Running || status == Stopped)
       case Reigns(i) => Alive(s.procs[i]) && s.procs[i].pid != 0
       case Exits(i) => Visible(s.procs[i]) && s.procs[i].pid != 0
       case Collected(i) => s.procs[i].status == Exited
  }

  /** Who adopts the orphans of a process: the reaper, if that is another one. */
  function Heir(s: Snapshot, pid: nat): nat {
    if s.reaper == pid then 0 else s.reaper
  }

  function After(s: Snapshot, op: Op): Snapshot
    requires Enabled(s, op)
  {
    var p := s.procs[op.i];
    match op
    case Reserves(i, parent) => s.(procs := s.procs[i := Proc(Allocating, s.next, parent)], next := s.next + 1)
    case Releases(i) => s.(procs := s.procs[i := p.(status := Unused)])
    case Publishes(i) => s.(procs := s.procs[i := p.(status := Ready)])
    case Resumes(i, status) => s.(procs := s.procs[i := p.(status := status)])
    case Reigns(i) => s.(procs := Adopted(s.procs, i, 0, p.pid), reaper := p.pid)
    case Exits(i) => s.(procs := AfterExit(s.procs, i, Heir(s, p.pid)), reaper := Heir(s, p.pid))
    case Collected(i) => s.(procs := s.procs[i := p.(status := Reaped, parent := 0)])
  }

  /** Every parent is alive, nobody is their own parent, and the reaper has none. */
  ghost predicate Orderly(s: Snapshot) {
    LiveParents(s.procs) && forall i :: 0 <= i < |s.procs| ==> OrderlyAt(s, s.procs[i])
  }

  predicate OrderlyAt(s: Snapshot, p: Proc) {
    Visible(p) ==> p.parent == 0 || (p.parent != p.pid && p.pid != s.reaper)
  }

  /**
   What callers can check: a child is published while its parent lives, and only a process
   without a parent becomes the reaper.
   */
  ghost predicate Careful(s: Snapshot, op: Op)
    requires Enabled(s, op)
  {
    match op
    case Publishes(i) => s.procs[i].parent == 0 || HasLive(s.procs, s.procs[i].parent)
    case Reigns(i) => s.procs[i].parent == 0
    case _ => true
  }

  lemma StillLive(procs: seq<Proc>, procs': seq<Proc>, pid: nat)
    requires |procs'| == |procs| && HasLive(procs, pid)
    requires forall j :: 0 <= j < |procs| && Alive(procs[j]) && procs[j].pid == pid ==>
      Alive(procs'[j]) && procs'[j].pid == pid
    ensures HasLive(procs', pid)
  {
    var j :| 0 <= j < |procs| && procs[j].pid == pid && Alive(procs[j]);
    assert procs'[j].pid == pid && Alive(procs'[j]);
  }

  lemma StaysDistinct(s: Snapshot, op: Op)
    requires Distinct(s.procs, s.next) && Enabled(s, op)
    ensures Distinct(After(s, op).procs, After(s, op).next)
  {
    var t := After(s, op);
    forall j | 0 <= j < |t.procs|
      ensures t.procs[j].pid == if op.Reserves? && j == op.i then s.next else s.procs[j].pid
      ensures t.procs[j].pid == 0 ==> t.procs[j].status == Unused
    {
    }
  }

  lemma StaysSound(s: Snapshot, op: Op)
    requires Sound(s) && Enabled(s, op)
    ensures Sound(After(s, op))
  {
    var t := After(s, op);
    StaysDistinct(s, op);
    if t.reaper != 0 {
      match op {
        case Reigns(i) =>
          assert t.procs[i].pid == t.reaper && Alive(t.procs[i]);
        case Exits(i) =>
          LiveAfterExit(s.procs, i, Heir(s, s.procs[i].pid), s.next, t.reaper);
        case _ =>
          StillLive(s.procs, t.procs, t.reaper);
      }
    }
  }

  lemma OneSlot(s: Snapshot, t: Snapshot, i: nat)
    requires i < |s.procs| == |t.procs| && t.reaper == s.reaper && t.procs == s.procs[i := t.procs[i]]
    requires forall j :: 0 <= j < |s.procs| ==> OrderlyAt(s, s.procs[j])
    ensures (forall j :: 0 <= j < |t.procs| ==> OrderlyAt(t, t.procs[j])) <==> OrderlyAt(t, t.procs[i])
  {
    forall j | 0 <= j < |t.procs| && j != i
      ensures OrderlyAt(t, t.procs[j])
    {
      assert t.procs[j] == s.procs[j];
    }
  }

  /** Each operation keeps the order if and only if it was careful. */
  lemma OrderKept(s: Snapshot, op: Op)
    requires Sound(s) && Enabled(s, op) && Orderly(s)
    ensures Orderly(After(s, op)) <==> Careful(s, op)
  {
    var t := After(s, op);
    match op {
      case Reigns(i) =>
        ReaperKeepsParents(s.procs, i);
        assert OrderlyAt(t, t.procs[i]) <==> s.procs[i].parent == 0;
        forall j | 0 <= j < |t.procs| && j != i
          ensures OrderlyAt(t, t.procs[j])
        {
          assert OrderlyAt(s, s.procs[j]);
        }
      case Exits(i) =>
        ExitOrder(s, i);
      case Resumes(i, status) =>
        assert OrderlyAt(s, s.procs[i]);
        OneSlot(s, t, i);
        ResumeKeepsParents(s.procs, i, status);
      case Publishes(i) =>
        OneSlot(s, t, i);
        SlotKeepsParents(s.procs, i, t.procs[i]);
        PublishOrder(s, i);
      case _ =>
        OneSlot(s, t, op.i);
        SlotKeepsParents(s.procs, op.i, t.procs[op.i]);
    }
  }

  lemma ResumeKeepsParents(procs: seq<Proc>, i: nat, status: Status)
    requires i < |procs| && LiveParents(procs) && Alive(procs[i])
    requires (status == Ready || status == Running || status == Stopped)
    ensures LiveParents(procs[i := procs[i].(status := status)])
  {
    var t := procs[i := procs[i].(status := status)];
    forall j | 0 <= j < |t| && Visible(t[j]) && t[j].parent != 0
      ensures HasLive(t, t[j].parent)
    {
      assert HasLive(procs, procs[j].parent);
      StillLive(procs, t, t[j].parent);
    }
  }

  /**
   A process that is being published has no parent, or a living one that is another process and
   makes it no reaper.
   */
  lemma PublishOrder(s: Snapshot, i: nat)
    requires Sound(s) && i < |s.procs| && s.procs[i].status == Allocating
    ensures var t := s.procs[i := s.procs[i].(status := Ready)]; var p := s.procs[i].parent;
      p != 0 ==> (HasLive(t, p) && p != s.procs[i].pid <==> HasLive(s.procs, p))
    ensures s.procs[i].pid != s.reaper
  {
    var t := s.procs[i := s.procs[i].(status := Ready)];
    var p := s.procs[i].parent;
    if HasLive(s.procs, p) {
      StillLive(s.procs, t, p);
      var j :| 0 <= j < |s.procs| && s.procs[j].pid == p && Alive(s.procs[j]);
      assert j != i;
    }
    if HasLive(t, p) && p != s.procs[i].pid {
      var j :| 0 <= j < |t| && t[j].pid == p && Alive(t[j]);
      assert s.procs[j].pid == p && Alive(s.procs[j]);
    }
  }

  lemma ExitOrder(s: Snapshot, i: nat)
    requires Sound(s) && Enabled(s, Exits(i)) && Orderly(s)
    ensures Orderly(After(s, Exits(i)))
  {
    var t, heir := After(s, Exits(i)), Heir(s, s.procs[i].pid);
    assert OrderlyAt(s, s.procs[i]);
    ExitKeepsParents(s.procs, i, heir, s.next);
    forall j | 0 <= j < |t.procs|
      ensures OrderlyAt(t, t.procs[j])
    {
      assert OrderlyAt(s, s.procs[j]);
    }
  }

  /** The states of a run. */
  ghost predicate IsRun(states: seq<Snapshot>, ops: seq<Op>) {
    && |states| == |ops| + 1
    && forall k :: 0 <= k < |ops| ==> Enabled(states[k], ops[k]) && states[k + 1] == After(states[k], ops[k])
  }

  /**
   Over every run of a table in which children are published under living parents and only
   processes without a parent become the reaper, every parent is alive, in every state.
   */
  lemma {:induction false} ParentsLive(states: seq<Snapshot>, ops: seq<Op>)
    requires IsRun(states, ops) && Sound(states[0]) && Orderly(states[0])
    requires forall k :: 0 <= k < |ops| ==> Enabled(states[k], ops[k]) && Careful(states[k], ops[k])
    ensures forall k :: 0 <= k < |states| ==> Sound(states[k]) && Orderly(states[k])
    decreases |ops|
  {
    if ops != [] {
      var n := |ops| - 1;
      ParentsLive(states[..n + 1], ops[..n]);
      assert Sound(states[..n + 1][n]) && Orderly(states[..n + 1][n]);
      StaysSound(states[n], ops[n]);
      OrderKept(states[n], ops[n]);
      forall k | 0 <= k < |states|
        ensures Sound(states[k]) && Orderly(states[k])
      {
        if k <= n {
          assert states[..n + 1][k] == states[k];
        }
      }
    }
  }

  /** Nothing weaker would do: without the order, one or two processes have only to exit and a parent is dead. */
  lemma DisorderBreaks(s: Snapshot) returns (ops: seq<Op>, states: seq<Snapshot>)
    requires Sound(s) && LiveParents(s.procs) && !Orderly(s)
    ensures IsRun(states, ops) && states[0] == s && |ops| <= 2 && !LiveParents(states[|ops|].procs)
    ensures forall k :: 0 <= k < |ops| ==> ops[k].Exits?
  {
    var i :| 0 <= i < |s.procs| && !OrderlyAt(s, s.procs[i]);
    var p := s.procs[i];
    if p.parent == p.pid {
      ops, states := [Exits(i)], [s, After(s, Exits(i))];
      ExitKeepsParents(s.procs, i, Heir(s, p.pid), s.next);
    } else {
      assert HasLive(s.procs, p.parent);
      var j :| 0 <= j < |s.procs| && s.procs[j].pid == p.parent && Alive(s.procs[j]);
      assert p.parent != p.pid && s.reaper == p.pid && j != i;
      var t := After(s, Exits(j));
      StaysSound(s, Exits(j));
      assert t.procs[i] == p.(parent := p.pid) && t.reaper == p.pid;
      LiveAfterExit(s.procs, j, s.reaper, s.next, p.pid);
      var u := After(t, Exits(i));
      ops, states := [Exits(j), Exits(i)], [s, t, u];
      OwnParentDies(t, i);
    }
  }

  lemma OwnParentDies(s: Snapshot, i: nat)
    requires Sound(s) && Enabled(s, Exits(i)) && s.procs[i].parent == s.procs[i].pid
    ensures !LiveParents(After(s, Exits(i)).procs)
  {
    var t := After(s, Exits(i)).procs;
    LiveAfterExit(s.procs, i, Heir(s, s.procs[i].pid), s.next, s.procs[i].pid);
    assert Visible(t[i]) && t[i].parent == s.procs[i].pid && t[i].parent != 0;
  }
}

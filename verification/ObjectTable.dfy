/**
 The life of a shared-memory object: it stays while it has a name or an open description, and
 lets go of its backing with the last of them (xscore/kernel/process.c).
 */
module ObjectTables {
  import opened Bytes
  import opened Machine
  import opened Faults
  import opened Teardown
  import opened Sharing
  import opened Runs
  import opened Kernels
  import opened Objects

  /** How many open descriptions an object has, and whether it has a name. */
  datatype Usage = Usage(descriptions: nat, linked: bool)

  datatype Opened = Open(id: nat) | Exists | Missing | Exhausted

  class Table {
    const k: Kernel
    var objects: map<nat, Usage>

    /** The objects in the table are the ones that hold backings, and each of them is in use. */
    ghost predicate Valid()
      reads this, k
    {
      && k.Valid()
      && (forall o: nat :: o in objects <==> ObjectRef(o) in k.m.attached)
      && (forall o :: o in objects ==> Used(objects[o]))
    }

    /** An empty table, over memory in which no object is open. */
    constructor (kernel: Kernel)
      requires kernel.Valid() && forall o: nat :: ObjectRef(o) !in kernel.m.attached
      ensures Valid() && k == kernel && objects == map[]
    {
      k, objects := kernel, map[];
    }

    /** `memfd_create`: an object with one description, or nothing when the table, memory or the descriptors run out. */
    method CreateMemfd(pid: nat, sealable: bool) returns (made: Option<nat>)
      requires Valid()
      modifies this, k
      ensures Valid() && SameViews(old(k.m), k.m) && Step(old(k.m), k.m, pid)
      ensures made.Some? ==> made.value !in old(objects) && objects == old(objects)[made.value := Usage(1, false)]
      ensures made.Some? ==> IsObject(k.m, made.value)
      ensures made.Some? ==>
        k.m == Created(old(k.m), made.value, k.m.attached[ObjectRef(made.value)], FreshBacking(true, sealable))
      ensures made.Some? ==> BlankObject(k.m, made.value, true, sealable)
      ensures made.None? ==> objects == old(objects) && k.m.attached == old(k.m).attached && k.m.slots == old(k.m).slots
      ensures made.None? ==> k.starved || forall i :: 0 <= i < MAX_OBJECTS ==> i in objects
    {
      made := Make(pid, true, sealable, false);
    }

    /** A new object with one description. */
    method Make(pid: nat, memfd: bool, sealable: bool, linked: bool) returns (made: Option<nat>)
      requires Valid()
      modifies this, k
      ensures Valid() && SameViews(old(k.m), k.m) && Step(old(k.m), k.m, pid)
      ensures made.Some? ==> made.value !in old(objects) && objects == old(objects)[made.value := Usage(1, linked)]
      ensures made.Some? ==> IsObject(k.m, made.value)
      ensures made.Some? ==>
        k.m == Created(old(k.m), made.value, k.m.attached[ObjectRef(made.value)], FreshBacking(memfd, sealable))
      ensures made.Some? ==> BlankObject(k.m, made.value, memfd, sealable)
      ensures made.None? ==> objects == old(objects) && k.m.attached == old(k.m).attached && k.m.slots == old(k.m).slots
      ensures made.None? ==> k.starved || forall i :: 0 <= i < MAX_OBJECTS ==> i in objects
    {
      ghost var s := k.m;
      made := CreateObject(k, pid, memfd, sealable);
      if made.None? {
        return;
      }
      var installed: bool := *;
      if !installed {
        Uncreate(k, s, pid, made.value);
        k.starved := true;
        return None;
      }
      objects := objects[made.value := Usage(1, linked)];
    }

    /**
     `shm_open`, for a name that means the object `named` or none: a further description of that
     object, or a new one with a name and one description, or no change at all.
     */
    method OpenNamed(pid: nat, named: Option<nat>, create: bool, exclusive: bool) returns (r: Opened)
      requires Valid() && (named.Some? ==> named.value in objects)
      modifies this, k
      ensures Valid() && SameViews(old(k.m), k.m) && Step(old(k.m), k.m, pid)
      ensures r == Exists <==> named.Some? && create && exclusive
      ensures r == Missing <==> named.None? && !create
      ensures !r.Open? ==> objects == old(objects) && k.m.attached == old(k.m).attached && k.m.slots == old(k.m).slots
      ensures r == Exhausted ==> k.starved || forall i :: 0 <= i < MAX_OBJECTS ==> i in objects
      ensures r.Open? && named.Some? ==> r.id == named.value && k.m == old(k.m)
      ensures r.Open? && named.Some? ==>
        objects == old(objects)[r.id := Usage(old(objects)[r.id].descriptions + 1, old(objects)[r.id].linked)]
      ensures r.Open? && named.None? ==> r.id !in old(objects) && objects == old(objects)[r.id := Usage(1, true)]
      ensures r.Open? && named.None? ==> BlankObject(k.m, r.id, false, false)
    {
      ghost var s := k.m;
      Unchanged(s);
      InvisibleSteps(s, s, pid);
      if named.Some? {
        if create && exclusive {
          return Exists;
        }
        r := Reopen(named.value);
        return;
      }
      if !create {
        return Missing;
      }
      var made := Make(pid, false, false, true);
      return if made.Some? then Open(made.value) else Exhausted;
    }

    /** One more description of an object, if there is a descriptor for it. */
    method Reopen(o: nat) returns (r: Opened)
      requires Valid() && o in objects
      modifies this`objects, k`starved
      ensures Valid() && (r == Open(o) || r == Exhausted)
      ensures r == Exhausted ==> k.starved && objects == old(objects)
      ensures r.Open? ==> objects == old(objects)[o := Usage(old(objects)[o].descriptions + 1, old(objects)[o].linked)]
    {
      var installed: bool := *;
      if !installed {
        k.starved := true;
        return Exhausted;
      }
      objects := objects[o := objects[o].(descriptions := objects[o].descriptions + 1)];
      return Open(o);
    }

    /**
     `shm_descriptor_release`: the object goes with its last description if it has no name, and
     its backing goes with it if and only if no mapping holds it; no process sees a change.
     */
    method ReleaseDescription(pid: nat, o: nat)
      requires Valid()
      modifies this, k
      ensures Valid() && SameViews(old(k.m), k.m) && k.m.slots == old(k.m).slots && Step(old(k.m), k.m, pid)
      ensures o !in old(objects) || old(objects)[o].descriptions == 0 ==> objects == old(objects) && k.m == old(k.m)
      ensures o in old(objects) && old(objects)[o].descriptions > 0 ==>
        AfterUse(old(objects), objects, o, old(objects)[o].(descriptions := old(objects)[o].descriptions - 1))
      ensures o in old(objects) ==> (o in objects <==> old(objects)[o].descriptions != 1 || old(objects)[o].linked)
      ensures o in objects ==> k.m == old(k.m) && objects[o].linked == old(objects)[o].linked
      ensures o in old(objects) && o !in objects ==> BackingReleased(old(k.m), k.m, o)
    {
      ghost var s := k.m;
      Unchanged(s);
      InvisibleSteps(s, s, pid);
      if o !in objects || objects[o].descriptions == 0 {
        return;
      }
      Settle(pid, o, objects[o].(descriptions := objects[o].descriptions - 1));
    }

    /** `shm_unlink`: the name goes, and the object too if nothing else uses it. */
    method Unlink(pid: nat, o: nat)
      requires Valid() && o in objects
      modifies this, k
      ensures Valid() && SameViews(old(k.m), k.m) && k.m.slots == old(k.m).slots && Step(old(k.m), k.m, pid)
      ensures AfterUse(old(objects), objects, o, old(objects)[o].(linked := false))
      ensures o in objects <==> old(objects)[o].descriptions > 0
      ensures o in objects ==> k.m == old(k.m) && objects[o] == Usage(old(objects)[o].descriptions, false)
      ensures o !in objects ==> BackingReleased(old(k.m), k.m, o)
    {
      Settle(pid, o, objects[o].(linked := false));
    }

    /** `shm_object_maybe_destroy`. */
    method Settle(pid: nat, o: nat, usage: Usage)
      requires Valid() && o in objects
      modifies this, k
      ensures Valid() && SameViews(old(k.m), k.m) && k.m.slots == old(k.m).slots && Step(old(k.m), k.m, pid)
      ensures AfterUse(old(objects), objects, o, usage)
      ensures o in objects ==> k.m == old(k.m)
      ensures o !in objects ==> BackingReleased(old(k.m), k.m, o)
    {
      ghost var s := k.m;
      Unchanged(s);
      InvisibleSteps(s, s, pid);
      if Used(usage) {
        objects := objects[o := usage];
      } else {
        CloseObject(k, pid, o);
        objects := objects - {o};
      }
    }
  }

  /** `shm_object_clear` after a descriptor could not be had. */
  method Uncreate(k: Kernel, ghost s: State, pid: nat, o: nat)
    requires k.Valid() && Step(s, k.m, pid) && ObjectRef(o) in k.m.attached && ObjectRef(o) !in s.attached
    requires SameViews(s, k.m)
    requires k.m.attached == s.attached[ObjectRef(o) := k.m.attached[ObjectRef(o)]] && k.m.slots == s.slots
    modifies k
    ensures k.Valid() && SameViews(s, k.m) && k.m.attached == s.attached && k.m.slots == s.slots && Step(s, k.m, pid)
  {
    ghost var t := k.m;
    CloseObject(k, pid, o);
    assert s.attached[ObjectRef(o) := t.attached[ObjectRef(o)]] - {ObjectRef(o)} == s.attached;
    SameViewsTwice(s, t, k.m);
    UncreateSteps(s, t, k.m, pid);
  }

  lemma UncreateSteps(s: State, t: State, u: State, pid: nat)
    requires Step(s, t, pid) && Step(t, u, pid) && FewerShared(t, u) && SameViews(s, u) && u.slots == s.slots
    ensures Step(s, u, pid)
  {
    SameIsolates(s, u, pid);
    forall b | b in s.backings && b in u.backings
      ensures SealsRespected(s, u, b)
    {
      assert BackingKept(t, u, b) && SealsRespected(s, t, b);
    }
  }

  predicate Used(u: Usage) {
    u.descriptions > 0 || u.linked
  }

  /** The object stays, with its new usage, exactly while it is used; no other object changes. */
  ghost predicate AfterUse(objects: map<nat, Usage>, objects': map<nat, Usage>, o: nat, usage: Usage) {
    objects' == if Used(usage) then objects[o := usage] else objects - {o}
  }

  /** The object's reference is gone, and its backing too if that was the last one. */
  ghost predicate BackingReleased(s: State, t: State, o: nat) {
    && ObjectRef(o) in s.attached && t.attached == s.attached - {ObjectRef(o)} && s.attached[ObjectRef(o)] in s.shares
    && (s.attached[ObjectRef(o)] in t.backings <==> s.shares[s.attached[ObjectRef(o)]] > 1)
  }
}

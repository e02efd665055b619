/**
 The write-back cache of disk sectors (xscore/kernel/bufcache.c). `disk` is what a plain
 array of sectors would hold after the same reads and writes; the device may refuse any
 transfer. `lost` are the sectors whose unwritten bytes the cache has given up.
 */
module BufCache {
  import opened Bytes

  const SECTORS: nat := 64
  const SECTOR_SIZE: nat := 512

  type Sector = s: seq<Byte> | |s| == SECTOR_SIZE witness seq(SECTOR_SIZE, _ => 0)

  type Disk = map<nat, Sector>

  datatype Entry = Entry(sector: nat, valid: bool, dirty: bool, tick: nat, data: Sector)

  ghost predicate Holds(e: Entry, sector: nat) {
    e.valid && e.sector == sector
  }

  ghost function Lookup(disk: Disk, sector: nat): Option<Sector> {
    if sector in disk then Some(disk[sector]) else None
  }

  /** What a reader of the sector finds: the cached bytes, else the device's. */
  ghost predicate Shows(entries: seq<Entry>, device: Disk, sector: nat, bytes: Option<Sector>) {
    && (forall i :: 0 <= i < |entries| && Holds(entries[i], sector) ==> bytes == Some(entries[i].data))
    && ((forall i :: 0 <= i < |entries| ==> !Holds(entries[i], sector)) ==> bytes == Lookup(device, sector))
  }

  /** No sector is cached twice, and no two entries were used at the same time. */
  ghost predicate Distinct(entries: seq<Entry>, tick: nat) {
    && (forall i, j :: 0 <= i < j < |entries| && entries[i].valid && entries[j].valid ==>
        entries[i].sector != entries[j].sector && entries[i].tick != entries[j].tick)
    && (forall i :: 0 <= i < |entries| && entries[i].valid ==> entries[i].tick <= tick)
  }

  /** Entries that are not dirty are on the device. */
  ghost predicate Clean(entries: seq<Entry>, device: Disk) {
    forall i :: 0 <= i < |entries| && entries[i].valid && !entries[i].dirty ==>
      Lookup(device, entries[i].sector) == Some(entries[i].data)
  }

  /** Readers find what a plain disk holds, except where bytes were given up. */
  ghost predicate Agrees(entries: seq<Entry>, device: Disk, disk: Disk, lost: set<nat>) {
    forall s: nat :: s !in lost ==> Shows(entries, device, s, Lookup(disk, s))
  }

  // ---------- Replacing one entry ----------

  /** The device after a dirty entry has been written back, or not. */
  ghost function WrittenBack(device: Disk, e: Entry, ok: bool): Disk {
    if e.valid && e.dirty && ok then device[e.sector := e.data] else device
  }

  /** What is given up when an entry goes without having been written back. */
  ghost function GivenUp(e: Entry, ok: bool): set<nat> {
    if e.valid && e.dirty && !ok then {e.sector} else {}
  }

  /** An entry leaves the cache: its bytes are on the device, or given up. */
  lemma DropAgrees(entries: seq<Entry>, i: nat, device: Disk, disk: Disk, lost: set<nat>, ok: bool, blank: Entry,
      tick: nat)
    requires i < |entries| && Distinct(entries, tick) && Clean(entries, device) && Agrees(entries, device, disk, lost)
    requires !blank.valid
    ensures Agrees(entries[i := blank], WrittenBack(device, entries[i], ok), disk, lost + GivenUp(entries[i], ok))
    ensures Clean(entries[i := blank], WrittenBack(device, entries[i], ok))
    ensures Distinct(entries[i := blank], tick)
  {
    var t, device' := entries[i := blank], WrittenBack(device, entries[i], ok);
    forall s: nat | s !in lost + GivenUp(entries[i], ok)
      ensures Shows(t, device', s, Lookup(disk, s))
    {
      assert Shows(entries, device, s, Lookup(disk, s));
      if forall j :: 0 <= j < |t| ==> !Holds(t[j], s) {
        if Holds(entries[i], s) {
          assert Lookup(device', s) == Some(entries[i].data);
        } else {
          assert forall j :: 0 <= j < |entries| ==> !Holds(entries[j], s) by {
            forall j | 0 <= j < |entries|
              ensures !Holds(entries[j], s)
            {
              assert j != i ==> t[j] == entries[j];
            }
          }
        }
      } else {
        assert forall j :: 0 <= j < |t| && Holds(t[j], s) ==> t[j] == entries[j];
      }
    }
  }

  /** A sector that is not cached enters the cache with the bytes of the device. */
  lemma FillAgrees(entries: seq<Entry>, i: nat, device: Disk, disk: Disk, lost: set<nat>, e: Entry, tick: nat)
    requires i < |entries| && !entries[i].valid && Distinct(entries, tick) && Clean(entries, device)
    requires Agrees(entries, device, disk, lost)
    requires e.valid && !e.dirty && e.tick == tick + 1 && Lookup(device, e.sector) == Some(e.data)
    requires forall j :: 0 <= j < |entries| ==> !Holds(entries[j], e.sector)
    ensures Agrees(entries[i := e], device, disk, lost) && Clean(entries[i := e], device)
    ensures Distinct(entries[i := e], tick + 1)
  {
    var t := entries[i := e];
    forall s: nat | s !in lost
      ensures Shows(t, device, s, Lookup(disk, s))
    {
      assert Shows(entries, device, s, Lookup(disk, s));
      assert forall j :: 0 <= j < |entries| && j != i ==> t[j] == entries[j];
      if forall j :: 0 <= j < |t| ==> !Holds(t[j], s) {
        assert forall j :: 0 <= j < |entries| ==> !Holds(entries[j], s);
      }
    }
  }

  /** A sector is written: into the entry that has it, or into a free one. */
  lemma WriteAgrees(entries: seq<Entry>, i: nat, device: Disk, disk: Disk, lost: set<nat>, e: Entry, tick: nat)
    requires i < |entries| && Distinct(entries, tick) && Clean(entries, device) && Agrees(entries, device, disk, lost)
    requires e.valid && e.dirty && e.tick == tick + 1
    requires forall j :: 0 <= j < |entries| && j != i ==> !Holds(entries[j], e.sector)
    requires entries[i].valid ==> entries[i].sector == e.sector
    ensures Agrees(entries[i := e], device, disk[e.sector := e.data], lost - {e.sector})
    ensures Clean(entries[i := e], device) && Distinct(entries[i := e], tick + 1)
  {
    var t := entries[i := e];
    forall s: nat | s !in lost - {e.sector}
      ensures Shows(t, device, s, Lookup(disk[e.sector := e.data], s))
    {
      assert forall j :: 0 <= j < |entries| && j != i ==> t[j] == entries[j];
      assert t[i] == e;
      if s != e.sector {
        assert Shows(entries, device, s, Lookup(disk, s));
        if forall j :: 0 <= j < |t| ==> !Holds(t[j], s) {
          assert forall j :: 0 <= j < |entries| ==> !Holds(entries[j], s);
        }
      }
    }
  }

  /** An entry is used: only its time moves. */
  lemma TouchAgrees(entries: seq<Entry>, i: nat, device: Disk, disk: Disk, lost: set<nat>, tick: nat)
    requires i < |entries| && entries[i].valid && Distinct(entries, tick) && Clean(entries, device)
    requires Agrees(entries, device, disk, lost)
    ensures var t := entries[i := entries[i].(tick := tick + 1)];
      Agrees(t, device, disk, lost) && Clean(t, device) && Distinct(t, tick + 1)
  {
    var t := entries[i := entries[i].(tick := tick + 1)];
    forall s: nat | s !in lost
      ensures Shows(t, device, s, Lookup(disk, s))
    {
      assert Shows(entries, device, s, Lookup(disk, s));
      assert forall j :: 0 <= j < |t| ==> Holds(t[j], s) == Holds(entries[j], s) && t[j].data == entries[j].data;
    }
  }

  /**
   After a refused write-back a reader finds the device's old bytes, so the cache still
   agrees with the plain disk there exactly when the device happened to hold them already.
   */
  lemma GivenUpIsGone(entries: seq<Entry>, i: nat, device: Disk, disk: Disk, lost: set<nat>, blank: Entry, tick: nat)
    requires i < |entries| && Distinct(entries, tick) && Agrees(entries, device, disk, lost) && !blank.valid
    requires entries[i].valid && entries[i].dirty && entries[i].sector !in lost
    ensures Shows(entries[i := blank], device, entries[i].sector, Lookup(disk, entries[i].sector))
      <==> Lookup(device, entries[i].sector) == Some(entries[i].data)
  {
    var s := entries[i].sector;
    assert Shows(entries, device, s, Lookup(disk, s)) && Holds(entries[i], s);
    var t := entries[i := blank];
    forall j | 0 <= j < |t|
      ensures !Holds(t[j], s)
    {
      assert j != i ==> t[j] == entries[j];
    }
  }

  /** One dirty sector over a device with other bytes: once it is dropped a reader finds those. */
  lemma GivenUpSector(entries: seq<Entry>, before: Sector, after: Sector, device: Disk, disk: Disk)
    requires entries == [Entry(0, true, true, 1, after)] && device == map[0 := before] && disk == map[0 := after]
    requires before != after
    ensures Distinct(entries, 1) && Agrees(entries, device, disk, {})
    ensures Shows(entries[0 := entries[0].(valid := false)], device, 0, Some(before))
    ensures !Shows(entries[0 := entries[0].(valid := false)], device, 0, Lookup(disk, 0))
  {
    forall s: nat | s !in {}
      ensures Shows(entries, device, s, Lookup(disk, s))
    {
      assert Holds(entries[0], s) <==> s == 0;
    }
    GivenUpIsGone(entries, 0, device, disk, {}, entries[0].(valid := false), 1);
  }

  /** An entry has been written back and stays. */
  lemma SyncAgrees(entries: seq<Entry>, i: nat, device: Disk, disk: Disk, lost: set<nat>, tick: nat)
    requires i < |entries| && entries[i].valid && Distinct(entries, tick) && Clean(entries, device)
    requires Agrees(entries, device, disk, lost)
    ensures var t, device' := entries[i := entries[i].(dirty := false)], device[entries[i].sector := entries[i].data];
      Agrees(t, device', disk, lost) && Clean(t, device') && Distinct(t, tick)
  {
    var t, device' := entries[i := entries[i].(dirty := false)], device[entries[i].sector := entries[i].data];
    forall s: nat | s !in lost
      ensures Shows(t, device', s, Lookup(disk, s))
    {
      assert Shows(entries, device, s, Lookup(disk, s));
      assert forall j :: 0 <= j < |t| ==> Holds(t[j], s) == Holds(entries[j], s) && t[j].data == entries[j].data;
      assert s == entries[i].sector ==> Holds(t[i], s);
    }
  }

  /** When nothing is dirty, the device itself is the plain disk. */
  lemma SyncedDevice(entries: seq<Entry>, device: Disk, disk: Disk, lost: set<nat>, s: nat)
    requires Clean(entries, device) && Agrees(entries, device, disk, lost) && s !in lost
    requires forall i :: 0 <= i < |entries| && entries[i].valid ==> !entries[i].dirty
    ensures Lookup(device, s) == Lookup(disk, s)
  {
    assert Shows(entries, device, s, Lookup(disk, s));
    if j :| 0 <= j < |entries| && Holds(entries[j], s) {
      assert Lookup(device, s) == Some(entries[j].data);
    }
  }

  /** Sectors whose bytes are only in the cache. */
  ghost function Dirty(entries: seq<Entry>): set<nat> {
    set i: nat | i < |entries| && entries[i].valid && entries[i].dirty :: entries[i].sector
  }

  /** Dropping everything gives up exactly what was dirty. */
  lemma InvalidateAgrees(entries: seq<Entry>, blank: seq<Entry>, device: Disk, disk: Disk, lost: set<nat>, tick: nat)
    requires Distinct(entries, tick) && Clean(entries, device) && Agrees(entries, device, disk, lost)
    requires |blank| == |entries| && forall i :: 0 <= i < |blank| ==> !blank[i].valid
    ensures Agrees(blank, device, disk, lost + Dirty(entries)) && Clean(blank, device) && Distinct(blank, tick)
  {
    forall s: nat | s !in lost + Dirty(entries)
      ensures Shows(blank, device, s, Lookup(disk, s))
    {
      assert Shows(entries, device, s, Lookup(disk, s));
      if j :| 0 <= j < |entries| && Holds(entries[j], s) {
        assert !entries[j].dirty;
      }
    }
  }

  // ---------- Recency ----------

  /** The entries used after entry `i`. */
  ghost function Younger(entries: seq<Entry>, i: nat): set<nat>
    requires i < |entries|
  {
    set j: nat | j < |entries| && entries[j].valid && entries[j].tick > entries[i].tick
  }

  /** The sector is cached, and at most `n` entries have been used since it was. */
  ghost predicate Recent(entries: seq<Entry>, sector: nat, n: nat) {
    exists i: nat :: i < |entries| && Holds(entries[i], sector) && |Younger(entries, i)| <= n
  }

  /** Entry `i` is used, filled or freed: nobody else's rank falls by more than one. */
  lemma RankStep(entries: seq<Entry>, i: nat, e: Entry, sector: nat, n: nat, k: nat)
    requires i < |entries| && k < |entries| && k != i && Holds(entries[k], sector) && |Younger(entries, k)| <= n
    ensures Recent(entries[i := e], sector, n + 1)
  {
    var t := entries[i := e];
    assert t[k] == entries[k];
    assert Younger(t, k) <= Younger(entries, k) + {i};
    SmallerSet(Younger(t, k), Younger(entries, k) + {i});
    assert |Younger(entries, k) + {i}| <= |Younger(entries, k)| + 1;
  }

  lemma {:induction false} SmallerSet(a: set<nat>, b: set<nat>)
    requires a <= b
    ensures |a| <= |b|
  {
    if a != {} {
      var x :| x in a;
      SmallerSet(a - {x}, b - {x});
    }
  }

  /** What was used last has rank 0. */
  lemma JustUsed(entries: seq<Entry>, i: nat, e: Entry, tick: nat)
    requires i < |entries| && Distinct(entries, tick) && e.valid && e.tick == tick + 1
    ensures Recent(entries[i := e], e.sector, 0)
  {
    var t := entries[i := e];
    assert Younger(t, i) == {};
    assert Holds(t[i], e.sector);
  }

  /** The entry that is replaced is free, or every other entry was used since. */
  ghost predicate Replaceable(entries: seq<Entry>, i: nat)
    requires i < |entries|
  {
    entries[i].valid ==> forall j :: 0 <= j < |entries| ==> entries[j].valid && entries[i].tick <= entries[j].tick
  }

  lemma VictimIsOldest(entries: seq<Entry>, i: nat, tick: nat)
    requires i < |entries| && Replaceable(entries, i) && entries[i].valid && Distinct(entries, tick)
    ensures |Younger(entries, i)| == |entries| - 1
  {
    Indices(|entries|);
    assert Younger(entries, i) == Below(|entries|) - {i};
  }

  ghost function Below(n: nat): set<nat> {
    if n == 0 then {} else Below(n - 1) + {n - 1}
  }

  lemma {:induction false} Indices(n: nat)
    ensures |Below(n)| == n && forall j: nat :: j in Below(n) <==> j < n
  {
    if n > 0 {
      Indices(n - 1);
    }
  }

  /** What one access may do to the recency of any sector. */
  ghost predicate AccessStep(entries: seq<Entry>, entries': seq<Entry>) {
    forall s: nat, n: nat :: n + 1 < |entries| && Recent(entries, s, n) ==> Recent(entries', s, n + 1)
  }

  lemma ReplaceSteps(entries: seq<Entry>, i: nat, e: Entry, tick: nat)
    requires i < |entries| && Distinct(entries, tick)
    requires Replaceable(entries, i) || (e.valid && e.sector == entries[i].sector && e.tick == tick + 1)
    ensures AccessStep(entries, entries[i := e])
  {
    forall s: nat, n: nat | n + 1 < |entries| && Recent(entries, s, n)
      ensures Recent(entries[i := e], s, n + 1)
    {
      var k: nat :| k < |entries| && Holds(entries[k], s) && |Younger(entries, k)| <= n;
      if k != i {
        RankStep(entries, i, e, s, n, k);
      } else if Replaceable(entries, i) {
        VictimIsOldest(entries, i, tick);
        assert false;
      } else {
        JustUsed(entries, i, e, tick);
        var z: nat :| z < |entries| && Holds(entries[i := e][z], s) && |Younger(entries[i := e], z)| <= 0;
        assert |Younger(entries[i := e], z)| <= n + 1;
      }
    }
  }

  /** A sector stays cached through the next accesses, up to one less than there are entries. */
  lemma {:induction false} StaysCached(states: seq<seq<Entry>>, sector: nat)
    requires 0 < |states| <= SECTORS && forall k :: 0 <= k < |states| ==> |states[k]| == SECTORS
    requires forall k :: 0 <= k < |states| - 1 ==> AccessStep(states[k], states[k + 1])
    requires Recent(states[0], sector, 0)
    ensures Recent(states[|states| - 1], sector, |states| - 1)
  {
    if |states| > 1 {
      var before := states[..|states| - 1];
      StaysCached(before, sector);
      assert AccessStep(states[|states| - 2], states[|states| - 1]);
    }
  }

  // ---------- The cache ----------

  /** Exactly one more sector is given up: a dirty one of the cache, and not the one asked for. */
  ghost predicate GivesUpOne(entries: seq<Entry>, sector: nat, lost: set<nat>, lost': set<nat>) {
    exists v :: v in Dirty(entries) && v != sector && lost' == lost + {v}
  }

  lemma OneGivenUp(entries: seq<Entry>, i: nat, sector: nat, lost: set<nat>, lost': set<nat>)
    requires i < |entries| && entries[i].valid && entries[i].dirty && !Holds(entries[i], sector)
    requires lost' == lost + {entries[i].sector} - {sector}
    ensures GivesUpOne(entries, sector, lost - {sector}, lost')
  {
    assert entries[i].sector in Dirty(entries);
    assert lost' == lost - {sector} + {entries[i].sector};
  }

  class Cache {
    var cache: array<Entry>
    var tick: nat
    var device: Disk
    ghost var disk: Disk
    ghost var lost: set<nat>
    /** Whether the device has ever refused a transfer. */
    ghost var refused: bool

    ghost predicate Valid()
      reads this, cache
    {
      && cache.Length == SECTORS && Distinct(cache[..], tick) && Clean(cache[..], device)
      && Agrees(cache[..], device, disk, lost)
    }

    /** A transfer that the device may refuse. */
    method DeviceRead(sector: nat) returns (ok: bool, data: Sector)
      modifies this`refused
      ensures ok ==> Lookup(device, sector) == Some(data)
      ensures refused == (old(refused) || !ok)
    {
      ok, data := *, *;
      if sector in device {
        data := device[sector];
      } else {
        ok := false;
      }
      refused := refused || !ok;
    }

    method DeviceWrite(sector: nat, data: Sector) returns (ok: bool)
      modifies this`device, this`refused
      ensures device == if ok then old(device)[sector := data] else old(device)
      ensures refused == (old(refused) || !ok)
    {
      ok := *;
      if ok {
        device := device[sector := data];
      }
      refused := refused || !ok;
    }

    method Find(sector: nat) returns (i: nat)
      requires cache.Length == SECTORS
      ensures i <= SECTORS && (i < SECTORS ==> Holds(cache[i], sector))
      ensures forall j :: 0 <= j < i ==> !Holds(cache[j], sector)
    {
      i := 0;
      while i < SECTORS && !(cache[i].valid && cache[i].sector == sector)
        invariant i <= SECTORS && forall j :: 0 <= j < i ==> !Holds(cache[j], sector)
      {
        i := i + 1;
      }
    }

    /** The first unused entry, else the least recently used one. */
    method FindRoom() returns (i: nat)
      requires cache.Length == SECTORS
      ensures i < SECTORS && Replaceable(cache[..], i)
    {
      i := 0;
      while i < SECTORS && cache[i].valid
        invariant i <= SECTORS && forall j :: 0 <= j < i ==> cache[j].valid
      {
        i := i + 1;
      }
      if i < SECTORS {
        return;
      }
      i := 0;
      var k := 1;
      while k < SECTORS
        invariant 1 <= k <= SECTORS && i < k && forall j :: 0 <= j < k ==> cache[i].tick <= cache[j].tick
      {
        if cache[k].tick < cache[i].tick {
          i := k;
        }
        k := k + 1;
      }
    }

    method Put(i: nat, e: Entry)
      requires i < cache.Length
      modifies cache
      ensures cache[..] == old(cache[..])[i := e]
    {
      cache[i] := e;
    }

    /** Takes an entry out of use; a dirty one is written back first, whether or not that works. */
    method Evict(i: nat) returns (ghost failed: bool)
      requires Valid() && i < SECTORS
      modifies this`device, this`lost, this`refused, cache
      ensures Valid() && !cache[i].valid && cache[..] == old(cache[..])[i := cache[i]]
      ensures lost == old(lost) + (if failed then {old(cache[i].sector)} else {})
      ensures failed ==> old(cache[i].valid && cache[i].dirty)
      ensures refused == (old(refused) || failed)
    {
      ghost var before, was := cache[..], device;
      failed := false;
      var ok := true;
      if cache[i].valid && cache[i].dirty {
        ok := DeviceWrite(cache[i].sector, cache[i].data);
        failed := !ok;
      }
      var blank := cache[i].(valid := false, dirty := false);
      DropAgrees(before, i, was, disk, lost, ok, blank, tick);
      lost := lost + GivenUp(before[i], ok);
      Put(i, blank);
    }

    /**
     `read`: what a plain disk would return, unless the sector's bytes were given up. Only a
     refused write-back gives bytes up, and then only those of the entry it was for.
     */
    method Read(sector: nat) returns (ok: bool, data: Sector, ghost failed: bool)
      requires Valid()
      modifies this, cache
      ensures Valid() && cache == old(cache) && disk == old(disk) && AccessStep(old(cache[..]), cache[..])
      ensures ok && sector !in old(lost) ==> Lookup(disk, sector) == Some(data)
      ensures ok ==> Recent(cache[..], sector, 0)
      ensures if failed then GivesUpOne(old(cache[..]), sector, old(lost), lost) else lost == old(lost)
      ensures !ok || failed ==> refused
    {
      failed := false;
      var i := Find(sector);
      if i < SECTORS {
        data := cache[i].data;
        Touch(i);
        return true, data, false;
      }
      ok, data, failed := ReadMissing(sector);
    }

    method Touch(i: nat)
      requires Valid() && i < SECTORS && cache[i].valid
      modifies this`tick, cache
      ensures Valid() && AccessStep(old(cache[..]), cache[..]) && Recent(cache[..], old(cache[i].sector), 0)
      ensures old(cache[i].sector) !in lost ==> Lookup(disk, old(cache[i].sector)) == Some(old(cache[i].data))
    {
      ghost var before := cache[..];
      ghost var e := before[i].(tick := tick + 1);
      TouchAgrees(before, i, device, disk, lost, tick);
      ReplaceSteps(before, i, e, tick);
      JustUsed(before, i, e, tick);
      assert before[i].sector !in lost ==> Shows(before, device, before[i].sector, Lookup(disk, before[i].sector));
      tick := tick + 1;
      Put(i, cache[i].(tick := tick));
    }

    method ReadMissing(sector: nat) returns (ok: bool, data: Sector, ghost failed: bool)
      requires Valid() && forall j :: 0 <= j < SECTORS ==> !Holds(cache[j], sector)
      modifies this, cache
      ensures Valid() && cache == old(cache) && disk == old(disk) && AccessStep(old(cache[..]), cache[..])
      ensures ok && sector !in old(lost) ==> Lookup(disk, sector) == Some(data)
      ensures ok ==> Recent(cache[..], sector, 0)
      ensures if failed then GivesUpOne(old(cache[..]), sector, old(lost), lost) else lost == old(lost)
      ensures !ok || failed ==> refused
    {
      ghost var before := cache[..];
      var i := FindRoom();
      failed := Evict(i);
      if failed {
        assert before[i].sector in Dirty(before) && before[i].sector != sector;
        assert lost == old(lost) + {before[i].sector};
      }
      ok, data := DeviceRead(sector);
      ghost var here := cache[..];
      ReplaceSteps(before, i, here[i], tick);
      if ok {
        FillEntry(i, sector, data, before);
      } else {
        tick := tick + 1;
      }
    }

    /** A sector enters a freed entry. */
    method FillEntry(i: nat, sector: nat, data: Sector, ghost before: seq<Entry>)
      requires Valid() && i < SECTORS && !cache[i].valid && Lookup(device, sector) == Some(data)
      requires |before| == SECTORS && Distinct(before, tick) && Replaceable(before, i)
      requires cache[..] == before[i := cache[i]]
      requires forall j :: 0 <= j < SECTORS ==> !Holds(before[j], sector)
      modifies this`tick, cache
      ensures Valid() && AccessStep(before, cache[..]) && Recent(cache[..], sector, 0)
      ensures sector !in lost ==> Lookup(disk, sector) == Some(data)
    {
      ghost var here := cache[..];
      var e := Entry(sector, true, false, tick + 1, data);
      NotHere(before, here, i, sector);
      FillAgrees(here, i, device, disk, lost, e, tick);
      assert here[i := e] == before[i := e];
      ReplaceSteps(before, i, e, tick);
      JustUsed(here, i, e, tick);
      assert sector !in lost ==> Shows(here, device, sector, Lookup(disk, sector));
      tick := tick + 1;
      Put(i, e);
    }

    /** `write`: the sector holds the new bytes for every later reader; the device is not touched for it. */
    method Write(sector: nat, data: Sector) returns (ghost failed: bool)
      requires Valid()
      modifies this, cache
      ensures Valid() && cache == old(cache) && disk == old(disk)[sector := data]
      ensures AccessStep(old(cache[..]), cache[..]) && Recent(cache[..], sector, 0)
      ensures sector !in lost
      ensures if failed then GivesUpOne(old(cache[..]), sector, old(lost) - {sector}, lost)
        else lost == old(lost) - {sector}
      ensures failed ==> refused
    {
      ghost var before := cache[..];
      var i := Find(sector);
      if i < SECTORS {
        failed := false;
        StoreEntry(i, sector, data, before);
      } else {
        failed := WriteMissing(sector, data);
      }
    }

    method WriteMissing(sector: nat, data: Sector) returns (ghost failed: bool)
      requires Valid() && forall j :: 0 <= j < SECTORS ==> !Holds(cache[j], sector)
      modifies this, cache
      ensures Valid() && cache == old(cache) && disk == old(disk)[sector := data]
      ensures AccessStep(old(cache[..]), cache[..]) && Recent(cache[..], sector, 0)
      ensures sector !in lost
      ensures if failed then GivesUpOne(old(cache[..]), sector, old(lost) - {sector}, lost)
        else lost == old(lost) - {sector}
      ensures failed ==> refused
    {
      ghost var before := cache[..];
      var i := FindRoom();
      failed := Evict(i);
      NotHere(before, cache[..], i, sector);
      tick := tick + 1;
      StoreEntry(i, sector, data, before);
      if failed {
        OneGivenUp(before, i, sector, old(lost), lost);
      }
    }

    /** The bytes of a sector go into its entry, or into a freed one. */
    method StoreEntry(i: nat, sector: nat, data: Sector, ghost before: seq<Entry>)
      requires Valid() && i < SECTORS && (cache[i].valid ==> cache[i].sector == sector)
      requires forall j :: 0 <= j < SECTORS && j != i ==> !Holds(cache[j], sector)
      requires |before| == SECTORS && Distinct(before, tick) && cache[..] == before[i := cache[i]]
      requires Replaceable(before, i) || before[i].sector == sector
      modifies this`tick, this`disk, this`lost, cache
      ensures Valid() && disk == old(disk)[sector := data] && lost == old(lost) - {sector}
      ensures AccessStep(before, cache[..]) && Recent(cache[..], sector, 0)
    {
      ghost var here := cache[..];
      var e := Entry(sector, true, true, tick + 1, data);
      WriteAgrees(here, i, device, disk, lost, e, tick);
      assert here[i := e] == before[i := e];
      ReplaceSteps(before, i, e, tick);
      JustUsed(here, i, e, tick);
      tick := tick + 1;
      disk, lost := disk[sector := data], lost - {sector};
      Put(i, e);
    }

    /** `sync`: when every transfer works, the device is the plain disk outside what was given up. */
    method Sync() returns (ghost all: bool)
      requires Valid()
      modifies this`device, this`refused, cache
      ensures Valid() && (!all ==> refused)
      ensures all ==> forall s :: s !in lost ==> Lookup(device, s) == Lookup(disk, s)
    {
      all := true;
      var i := 0;
      while i < SECTORS
        invariant i <= SECTORS && Valid() && (!all ==> refused)
        invariant all ==> forall j :: 0 <= j < i ==> cache[..][j].valid ==> !cache[..][j].dirty
      {
        if cache[i].valid && cache[i].dirty {
          var ok := SyncEntry(i);
          all := all && ok;
        }
        i := i + 1;
      }
      if all {
        forall s | s !in lost
          ensures Lookup(device, s) == Lookup(disk, s)
        {
          SyncedDevice(cache[..], device, disk, lost, s);
        }
      }
    }

    method SyncEntry(i: nat) returns (ok: bool)
      requires Valid() && i < SECTORS && cache[i].valid
      modifies this`device, this`refused, cache
      ensures refused == (old(refused) || !ok)
      ensures Valid() && cache[..] == if ok then old(cache[..])[i := old(cache[i]).(dirty := false)] else old(cache[..])
    {
      ghost var before, was := cache[..], device;
      ok := DeviceWrite(cache[i].sector, cache[i].data);
      if ok {
        SyncAgrees(before, i, was, disk, lost, tick);
        Put(i, cache[i].(dirty := false));
      }
    }

    /** `invalidate`: everything leaves the cache, and what was dirty is given up. */
    method Invalidate()
      requires Valid()
      modifies this`lost, cache
      ensures Valid() && lost == old(lost) + Dirty(old(cache[..]))
      ensures forall i :: 0 <= i < SECTORS ==> !cache[i].valid
    {
      ghost var before := cache[..];
      var i := 0;
      while i < SECTORS
        invariant i <= SECTORS && forall j :: 0 <= j < i ==> !cache[j].valid
        modifies cache
      {
        cache[i] := Entry(0, false, false, 0, cache[i].data);
        i := i + 1;
      }
      InvalidateAgrees(before, cache[..], device, disk, lost, tick);
      lost := lost + Dirty(before);
    }
  }

  lemma NotHere(before: seq<Entry>, here: seq<Entry>, i: nat, sector: nat)
    requires i < |before| == |here| && here == before[i := here[i]] && !here[i].valid
    requires forall j :: 0 <= j < |before| ==> !Holds(before[j], sector)
    ensures forall j :: 0 <= j < |here| ==> !Holds(here[j], sector)
  {
  }
}

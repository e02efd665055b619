/**
 The table of mappings of one process, with the address allocator of `mmap` and the
 swap-with-last removal of `munmap` (xscore/kernel/process.c).
 */
module MmapTable {
  import opened Bytes
  import opened Machine

  const CAPACITY: nat := 16384

  /** One index of the parallel arrays `mmap_*`. */
  datatype Record = Record(page: nat, frame: nat, flags: nat, protection: nat, cow: bool, backing: nat, offset: nat)

  const EMPTY: Record := Record(0, 0, 0, 0, false, 0, 0)

  /** Where a mapping went, or why it did not. */
  datatype Placed = At(base: nat) | Invalid | Full

  /** No record lies in `pages` pages from `base` on, and they fit in the window. */
  ghost predicate Free(records: seq<Record>, base: nat, pages: nat) {
    && 0 < pages && MMAP_START <= base < MMAP_END && pages <= (MMAP_END - base) / PAGE
    && forall i :: 0 <= i < |records| ==> !(base <= records[i].page < base + pages * PAGE)
  }

  /** The run of pages lies in the window, and every record lies below it or behind it. */
  ghost predicate Clear(records: seq<Record>, base: nat, pages: nat) {
    && 0 < pages && MMAP_START <= base && base + pages * PAGE <= MMAP_END
    && forall r :: r in records ==> r.page < base || base + pages * PAGE <= r.page
  }

  lemma FreeIsClear(records: seq<Record>, base: nat, pages: nat)
    ensures Free(records, base, pages) <==> Clear(records, base, pages)
  {
  }

  /** No free run starts in a range of addresses. */
  ghost predicate NoneFree(records: seq<Record>, from: nat, until: nat, pages: nat) {
    forall b: nat :: from <= b < until && b % PAGE == 0 ==> !Free(records, b, pages)
  }

  lemma Multiples(a: nat, b: nat)
    requires a * PAGE < (b + 1) * PAGE
    ensures a <= b
  {
  }

  lemma NextCandidate(records: seq<Record>, from: nat, candidate: nat, pages: nat)
    requires NoneFree(records, from, candidate, pages) && !Free(records, candidate, pages) && candidate % PAGE == 0
    ensures NoneFree(records, from, candidate + PAGE, pages)
  {
    forall b: nat | from <= b < candidate + PAGE && b % PAGE == 0
      ensures !Free(records, b, pages)
    {
      Multiples(b / PAGE, candidate / PAGE);
    }
  }

  lemma FreeInWindow(records: seq<Record>, base: nat, pages: nat)
    requires Free(records, base, pages) && base % PAGE == 0
    ensures MMAP_START <= base < MMAP_END && !NoneFree(records, MMAP_START, MMAP_END, pages)
  {
  }

  /** The records of a new mapping. */
  function Fresh(base: nat, pages: nat, flags: nat, protection: nat, backing: nat, offset: nat): (r: seq<Record>)
    ensures |r| == pages
    ensures forall i :: 0 <= i < pages ==>
      r[i] == Record(base + i * PAGE, 0, flags, protection, false, backing, offset + i * PAGE)
  {
    seq(pages,
      i requires 0 <= i < pages => Record(base + i * PAGE, 0, flags, protection, false, backing, offset + i * PAGE))
  }

  /** Every page is in the window, on a page boundary, and mapped once. */
  ghost predicate Proper(records: seq<Record>) {
    && (forall i :: 0 <= i < |records| ==> MMAP_START <= records[i].page < MMAP_END && records[i].page % PAGE == 0)
    && (forall i, j :: 0 <= i < j < |records| ==> records[i].page != records[j].page)
  }

  lemma FreshIsProper(records: seq<Record>, base: nat, pages: nat, flags: nat, protection: nat, backing: nat,
      offset: nat)
    requires Proper(records) && Free(records, base, pages) && base % PAGE == 0
    ensures Proper(records + Fresh(base, pages, flags, protection, backing, offset))
  {
    var more := Fresh(base, pages, flags, protection, backing, offset);
    forall i | 0 <= i < pages
      ensures MMAP_START <= more[i].page < MMAP_END && more[i].page % PAGE == 0
      ensures base <= more[i].page < base + pages * PAGE
    {
      assert more[i].page == base + i * PAGE;
    }
  }

  lemma PlacedWhereClear(records: seq<Record>, address: nat, pages: nat)
    ensures Free(records, address, pages) <==> Clear(records, address, pages)
    ensures NoneFree(records, MMAP_START, MMAP_END, pages) <==>
      forall b: nat :: b % PAGE == 0 ==> !Clear(records, b, pages)
  {
    FreeIsClear(records, address, pages);
    if NoneFree(records, MMAP_START, MMAP_END, pages) {
      forall b: nat | b % PAGE == 0
        ensures !Clear(records, b, pages)
      {
        FreeIsClear(records, b, pages);
      }
    }
    if forall b: nat :: b % PAGE == 0 ==> !Clear(records, b, pages) {
      forall b: nat | MMAP_START <= b < MMAP_END && b % PAGE == 0
        ensures !Free(records, b, pages)
      {
        FreeIsClear(records, b, pages);
      }
    }
  }

  class Table {
    var records: array<Record>
    var count: nat
    var next: nat

    ghost predicate Valid()
      reads this, records
    {
      Shape() && next % PAGE == 0 && Proper(Contents())
    }

    /** Entries past the count are empty. */
    ghost predicate Shape()
      reads this, records
    {
      records.Length == CAPACITY && count <= CAPACITY && forall i :: count <= i < CAPACITY ==> records[i] == EMPTY
    }

    /** The mappings, in table order. */
    ghost function Contents(): seq<Record>
      requires count <= records.Length
      reads this, records
    {
      records[..count]
    }

    constructor ()
      ensures Valid() && Contents() == [] && fresh(records)
    {
      records := new Record[CAPACITY](_ => EMPTY);
      count, next := 0, MMAP_START;
    }

    /** `mmap_range_is_free`. */
    method RangeIsFree(base: nat, pages: nat) returns (free: bool)
      requires Valid()
      ensures free <==> Free(Contents(), base, pages)
    {
      if pages == 0 || base < MMAP_START || base >= MMAP_END || pages > (MMAP_END - base) / PAGE {
        return false;
      }
      var i := 0;
      while i < count
        invariant i <= count && forall j :: 0 <= j < i ==> !(base <= records[j].page < base + pages * PAGE)
      {
        if base <= records[i].page < base + pages * PAGE {
          assert Contents()[i] == records[i];
          return false;
        }
        i := i + 1;
      }
      return true;
    }

    /** The first free run at or after `from` and before `until`, if there is one. */
    method FirstFree(from: nat, until: nat, pages: nat) returns (found: Option<nat>)
      requires Valid() && from % PAGE == 0
      ensures found.Some? ==> from <= found.value < until && found.value % PAGE == 0
      ensures found.Some? ==> Free(Contents(), found.value, pages)
      ensures NoneFree(Contents(), from, if found.Some? then found.value else until, pages)
    {
      var candidate := from;
      while candidate < until
        invariant from <= candidate && candidate % PAGE == 0
        invariant NoneFree(Contents(), from, candidate, pages)
        decreases until - candidate
      {
        var free := RangeIsFree(candidate, pages);
        if free {
          return Some(candidate);
        }
        NextCandidate(Contents(), from, candidate, pages);
        candidate := candidate + PAGE;
      }
      return None;
    }

    /** Where an unhinted search starts. */
    function SearchStart(): (start: nat)
      reads this
      ensures MMAP_START <= start < MMAP_END
      ensures MMAP_START <= next < MMAP_END ==> start == next
      ensures next < MMAP_START || next >= MMAP_END ==> start == MMAP_START
    {
      if next < MMAP_START || next >= MMAP_END then MMAP_START else next
    }

    /**
     The address for a mapping without a fixed address: the hint if it is free, else the next
     free run from the search start, wrapping around once. It fails only when no free run
     exists anywhere in the window.
     */
    method Choose(hint: nat, pages: nat) returns (base: Option<nat>)
      requires Valid()
      ensures base.Some? ==> base.value % PAGE == 0 && Free(Contents(), base.value, pages)
      ensures base.None? <==> NoneFree(Contents(), MMAP_START, MMAP_END, pages)
      ensures Free(Contents(), hint / PAGE * PAGE, pages) ==> base == Some(hint / PAGE * PAGE)
      ensures base.Some? && base.value != hint / PAGE * PAGE && base.value >= SearchStart() ==>
        NoneFree(Contents(), SearchStart(), base.value, pages)
      ensures base.Some? && base.value != hint / PAGE * PAGE && base.value < SearchStart() ==>
        NoneFree(Contents(), SearchStart(), MMAP_END, pages) && NoneFree(Contents(), MMAP_START, base.value, pages)
    {
      var wanted := hint / PAGE * PAGE;
      if wanted != 0 {
        var free := RangeIsFree(wanted, pages);
        if free {
          FreeInWindow(Contents(), wanted, pages);
          return Some(wanted);
        }
      }
      base := Search(pages);
    }

    /** The two passes of the search. */
    method Search(pages: nat) returns (base: Option<nat>)
      requires Valid()
      ensures base.Some? ==> base.value % PAGE == 0 && Free(Contents(), base.value, pages)
      ensures base.None? <==> NoneFree(Contents(), MMAP_START, MMAP_END, pages)
      ensures base.Some? && base.value >= SearchStart() ==> NoneFree(Contents(), SearchStart(), base.value, pages)
      ensures base.Some? && base.value < SearchStart() ==>
        NoneFree(Contents(), SearchStart(), MMAP_END, pages) && NoneFree(Contents(), MMAP_START, base.value, pages)
    {
      var start := SearchStart();
      base := FirstFree(start, MMAP_END, pages);
      if base.None? {
        base := FirstFree(MMAP_START, start, pages);
      }
      if base.Some? {
        FreeInWindow(Contents(), base.value, pages);
      }
    }

    method Push(r: Record)
      requires Shape() && count < CAPACITY
      modifies this`count, records
      ensures Shape() && Contents() == old(Contents()) + [r]
    {
      records[count] := r;
      count := count + 1;
    }

    /** The loop that appends the records of a new mapping, and where the next search starts. */
    method Append(base: nat, pages: nat, flags: nat, protection: nat, backing: nat, offset: nat)
      requires Valid() && base % PAGE == 0 && Free(Contents(), base, pages) && count + pages <= CAPACITY
      modifies this, records
      ensures Valid() && records == old(records)
      ensures Contents() == old(Contents()) + Fresh(base, pages, flags, protection, backing, offset)
      ensures next == if base + pages * PAGE >= MMAP_END then MMAP_START else base + pages * PAGE
    {
      FreshIsProper(Contents(), base, pages, flags, protection, backing, offset);
      PushAll(base, pages, flags, protection, backing, offset);
      next := if base + pages * PAGE >= MMAP_END then MMAP_START else base + pages * PAGE;
    }

    method PushAll(base: nat, pages: nat, flags: nat, protection: nat, backing: nat, offset: nat)
      requires Shape() && count + pages <= CAPACITY
      modifies this`count, records
      ensures Shape() && Contents() == old(Contents()) + Fresh(base, pages, flags, protection, backing, offset)
    {
      ghost var before := Contents();
      ghost var all := Fresh(base, pages, flags, protection, backing, offset);
      var i := 0;
      while i < pages
        invariant i <= pages && Shape() && Contents() == before + all[..i]
      {
        Push(Record(base + i * PAGE, 0, flags, protection, false, backing, offset + i * PAGE));
        i := i + 1;
        assert all[..i] == all[..i - 1] + [all[i - 1]];
      }
      assert all[..pages] == all;
    }

    /** Where `mmap` puts a mapping: at the address if that is fixed, else by hint or search. */
    method Place(address: nat, fixed: bool, pages: nat) returns (r: Placed)
      requires Valid() && pages > 0
      ensures r.At? ==> count + pages <= CAPACITY && r.base % PAGE == 0 && Free(Contents(), r.base, pages)
      ensures r.At? && fixed ==> r.base == address
      ensures r == Invalid <==>
        count + pages <= CAPACITY && fixed && !(address % PAGE == 0 && Free(Contents(), address, pages))
      ensures r == Full <==> count + pages > CAPACITY || (!fixed && NoneFree(Contents(), MMAP_START, MMAP_END, pages))
    {
      if count + pages > CAPACITY {
        return Full;
      }
      if fixed {
        var free := RangeIsFree(address, pages);
        return if address % PAGE != 0 || !free then Invalid else At(address);
      }
      var base := Choose(address, pages);
      return if base.None? then Full else At(base.value);
    }

    /** `mmap`: the pages are added at one free address, or nothing changes. */
    method Map(address: nat, fixed: bool, pages: nat, flags: nat, protection: nat, backing: nat, offset: nat)
      returns (r: Placed)
      requires Valid() && pages > 0
      modifies this, records
      ensures Valid() && records == old(records)
      ensures r.At? ==> old(count) + pages <= CAPACITY && r.base % PAGE == 0 && Free(old(Contents()), r.base, pages)
      ensures r.At? ==> Clear(old(Contents()), r.base, pages)
      ensures old(count) + pages <= CAPACITY && fixed ==>
        (r.At? <==> address % PAGE == 0 && Clear(old(Contents()), address, pages))
      ensures old(count) + pages <= CAPACITY && !fixed ==>
        (r.At? <==> exists b: nat :: b % PAGE == 0 && Clear(old(Contents()), b, pages))
      ensures r.At? ==> Contents() == old(Contents()) + Fresh(r.base, pages, flags, protection, backing, offset)
      ensures r.At? && fixed ==> r.base == address
      ensures !r.At? ==> Contents() == old(Contents())
      ensures r == Invalid <==>
        old(count) + pages <= CAPACITY && fixed && !(address % PAGE == 0 && Free(old(Contents()), address, pages))
      ensures r == Full <==>
        old(count) + pages > CAPACITY || (!fixed && NoneFree(old(Contents()), MMAP_START, MMAP_END, pages))
    {
      r := Place(address, fixed, pages);
      PlacedWhereClear(Contents(), address, pages);
      if r.At? {
        FreeIsClear(Contents(), r.base, pages);
        Append(r.base, pages, flags, protection, backing, offset);
      }
    }

    /** Looks at one record: it stays, or the last one takes its place. */
    method RemoveNext(ghost before: seq<Record>, i: nat, address: nat, end: nat) returns (next': nat)
      requires Valid() && i < count && Sifting(before, Contents(), i, address, end)
      modifies this`count, records
      ensures Valid() && next' <= count && count - next' < old(count) - i
      ensures Sifting(before, Contents(), next', address, end)
    {
      if records[i].page < address || records[i].page >= end {
        return i + 1;
      }
      SiftMore(before, Contents(), i, address, end);
      RemoveAt(i);
      return i;
    }

    /** Removes the record at `i`: the last record takes its place. */
    method RemoveAt(i: nat)
      requires Valid() && i < count
      modifies this`count, records
      ensures Valid() && count == old(count) - 1
      ensures Contents() == Removed(old(Contents()), i)
    {
      var last := count - 1;
      ghost var before := records[..];
      RemovedInPlace(before, count, i);
      RemovedHolds(Contents(), i);
      count := last;
      Set(i, records[last]);
      Set(last, EMPTY);
    }

    method Set(i: nat, r: Record)
      requires i < records.Length
      modifies records
      ensures records[..] == old(records[..])[i := r]
    {
      records[i] := r;
    }

    /**
     `munmap`: exactly the mappings outside the range stay, unchanged, and a search for free
     addresses starts no later than the range.
     */
    method Remove(address: nat, end: nat)
      requires Valid() && address % PAGE == 0
      modifies this, records
      ensures Valid() && records == old(records)
      ensures forall r :: r in Contents() <==> r in old(Contents()) && !(address <= r.page < end)
      ensures next == if MMAP_START <= address < MMAP_END && (old(next) < MMAP_START || address < old(next))
        then address else old(next)
    {
      if MMAP_START <= address < MMAP_END && (next < MMAP_START || address < next) {
        next := address;
      }
      ghost var before, start := Contents(), next;
      var i: nat := 0;
      while i < count
        invariant i <= count && Valid() && records == old(records) && next == start
        invariant Sifting(before, Contents(), i, address, end)
        decreases count - i
      {
        i := RemoveNext(before, i, address, end);
      }
      SiftDone(before, Contents(), address, end);
    }
  }

  /** A `munmap` that has looked at the first `i` records. */
  ghost predicate Sifting(before: seq<Record>, now: seq<Record>, i: nat, address: nat, end: nat)
    requires i <= |now|
  {
    && (forall r :: r in now ==> r in before)
    && (forall r :: r in before && !(address <= r.page < end) ==> r in now)
    && (forall j :: 0 <= j < i ==> !(address <= now[j].page < end))
  }

  lemma SiftDone(before: seq<Record>, now: seq<Record>, address: nat, end: nat)
    requires Sifting(before, now, |now|, address, end)
    ensures forall r :: r in now <==> r in before && !(address <= r.page < end)
  {
  }

  lemma SiftMore(before: seq<Record>, now: seq<Record>, i: nat, address: nat, end: nat)
    requires i < |now| && Proper(now) && Sifting(before, now, i, address, end) && address <= now[i].page < end
    ensures Sifting(before, Removed(now, i), i, address, end)
  {
    RemovedHolds(now, i);
  }

  /** The last record moved into place `i`. */
  ghost function Removed(records: seq<Record>, i: nat): seq<Record>
    requires i < |records|
  {
    var n := |records| - 1;
    if i == n then records[..n] else records[..n][i := records[n]]
  }

  /** The two assignments that remove a record. */
  lemma RemovedInPlace(all: seq<Record>, count: nat, i: nat)
    requires i < count <= |all|
    ensures var t := all[i := all[count - 1]][count - 1 := EMPTY];
      && t[..count - 1] == Removed(all[..count], i) && t[count - 1] == EMPTY
      && forall j :: count <= j < |all| ==> t[j] == all[j]
  {
  }

  /** Only the record at `i` is gone. */
  lemma RemovedHolds(records: seq<Record>, i: nat)
    requires Proper(records) && i < |records|
    ensures Proper(Removed(records, i))
    ensures forall r :: r in Removed(records, i) <==> r in records && r != records[i]
    ensures forall j :: 0 <= j < i ==> Removed(records, i)[j] == records[j]
  {
    var t := Removed(records, i);
    forall r | r in records && r != records[i]
      ensures r in t
    {
      var j :| 0 <= j < |records| && records[j] == r;
      assert t[if j == |records| - 1 then i else j] == r;
    }
  }
}

/**
 The cache of read-only image pages that all processes share (xscore/kernel/page_cache.c).
 The cache owns one reference to the frame of every entry; `held` counts the references
 that callers have handed over and that have not been dropped yet.
 */
module PageCache {

  const CAPACITY: nat := 2048

  /** A frame of 0 marks a free entry. Images are known by their address, which is never 0. */
  datatype Entry = Entry(image: nat, offset: nat, frame: nat)

  const FREE: Entry := Entry(0, 0, 0)

  ghost predicate Maps(entries: seq<Entry>, image: nat, offset: nat, frame: nat) {
    frame != 0 && Entry(image, offset, frame) in entries
  }

  /** Free entries are blank, and no page is cached twice. */
  ghost predicate Proper(entries: seq<Entry>) {
    && (forall i :: 0 <= i < |entries| ==> (entries[i].frame == 0 ==> entries[i] == FREE))
    && (forall i :: 0 <= i < |entries| ==> (entries[i].frame != 0 ==> entries[i].image != 0))
    && (forall i, j :: 0 <= i < j < |entries| && entries[i].frame != 0 && entries[j].frame != 0 ==>
        entries[i].image != entries[j].image || entries[i].offset != entries[j].offset)
  }

  ghost function Used(entries: seq<Entry>): set<nat> {
    set i: nat | i < |entries| && entries[i].frame != 0
  }

  ghost function One(e: Entry): multiset<nat> {
    if e.frame == 0 then multiset{} else multiset{e.frame}
  }

  /** One reference per entry in use. */
  ghost function References(entries: seq<Entry>): multiset<nat> {
    if entries == [] then multiset{} else One(entries[0]) + References(entries[1..])
  }

  lemma {:induction false} ReferencesSplit(a: seq<Entry>, b: seq<Entry>)
    ensures References(a + b) == References(a) + References(b)
  {
    if a == [] {
      assert a + b == b;
    } else {
      assert (a + b)[1..] == a[1..] + b;
      ReferencesSplit(a[1..], b);
    }
  }

  lemma ReferencesSet(entries: seq<Entry>, i: nat, e: Entry)
    requires i < |entries|
    ensures References(entries[i := e]) + One(entries[i]) == References(entries) + One(e)
  {
    assert entries == entries[..i] + [entries[i]] + entries[i + 1..];
    assert entries[i := e] == entries[..i] + [e] + entries[i + 1..];
    ReferencesSplit(entries[..i] + [entries[i]], entries[i + 1..]);
    ReferencesSplit(entries[..i], [entries[i]]);
    ReferencesSplit(entries[..i] + [e], entries[i + 1..]);
    ReferencesSplit(entries[..i], [e]);
  }

  lemma ReferencesShift(entries: seq<Entry>, e: Entry)
    requires entries != []
    ensures References(entries[1..] + [e]) + One(entries[0]) == References(entries) + One(e)
  {
    ReferencesSplit(entries[1..], [e]);
  }

  /** The references after entry `i` changes, given those before and the one handed over. */
  lemma ReferencesMove(entries: seq<Entry>, i: nat, e: Entry)
    requires i < |entries|
    ensures References(entries[i := e]) == References(entries) + One(e) - One(entries[i])
  {
    ReferencesSet(entries, i, e);
    Balance(References(entries[i := e]), One(entries[i]), References(entries) + One(e));
  }

  lemma ReferencesRotate(entries: seq<Entry>, e: Entry)
    requires entries != []
    ensures References(entries[1..] + [e]) == References(entries) + One(e) - One(entries[0])
  {
    ReferencesShift(entries, e);
    Balance(References(entries[1..] + [e]), One(entries[0]), References(entries) + One(e));
  }

  lemma Balance(a: multiset<nat>, b: multiset<nat>, c: multiset<nat>)
    requires a + b == c
    ensures a == c - b
  {
    assert (a + b) - b == a;
  }

  /** What `insert` does to the entries. */
  ghost function Inserted(entries: seq<Entry>, at: Where, e: Entry): seq<Entry>
    requires at.Slot? ==> at.index < |entries|
    requires at.Oldest? ==> entries != []
  {
    match at
    case Slot(i) => entries[i := e]
    case Oldest => entries[1..] + [e]
  }

  /** An entry to overwrite, or the first one with all others moving up. */
  datatype Where = Slot(index: nat) | Oldest

  /** Where `insert` puts a page: over its own entry, into the first free one, or at the end. */
  ghost predicate Chosen(entries: seq<Entry>, image: nat, offset: nat, at: Where) {
    match at
    case Slot(i) => i < |entries| && (
      || (entries[i].image == image && entries[i].offset == offset)
      || (entries[i].frame == 0 && NotCached(entries, image, offset) &&
          forall j :: 0 <= j < i ==> entries[j].frame != 0))
    case Oldest =>
      entries != [] && NotCached(entries, image, offset) && forall j :: 0 <= j < |entries| ==> entries[j].frame != 0
  }

  ghost predicate NotCached(entries: seq<Entry>, image: nat, offset: nat) {
    forall j :: 0 <= j < |entries| ==> !(entries[j].image == image && entries[j].offset == offset)
  }

  /** The page is cached afterwards, every other page stays except the one that was pushed out. */
  lemma InsertMaps(entries: seq<Entry>, at: Where, image: nat, offset: nat, frame: nat, im: nat, off: nat, f: nat)
    requires Proper(entries) && Chosen(entries, image, offset, at) && image != 0 && frame != 0
    ensures var t := Inserted(entries, at, Entry(image, offset, frame));
      Maps(t, im, off, f) <==>
        if im == image && off == offset then f == frame
        else Maps(entries, im, off, f) && (at.Oldest? ==> Entry(im, off, f) != entries[0])
  {
    var e := Entry(image, offset, frame);
    var t := Inserted(entries, at, e);
    assert t[if at.Slot? then at.index else |entries| - 1] == e;
    if Maps(entries, im, off, f) && (at.Oldest? ==> Entry(im, off, f) != entries[0]) {
      var k :| 0 <= k < |entries| && entries[k] == Entry(im, off, f);
      if im != image || off != offset {
        assert t[if at.Slot? then k else k - 1] == Entry(im, off, f);
      }
    }
  }

  /** A page has one entry. */
  lemma OnlyEntry(entries: seq<Entry>, i: nat, frame: nat)
    requires Proper(entries) && i < |entries| && entries[i].image != 0
    ensures entries[i].frame != 0
    ensures (Maps(entries, entries[i].image, entries[i].offset, frame) <==> entries[i].frame == frame)
  {
  }

  lemma UncachedMaps(entries: seq<Entry>, image: nat, offset: nat, frame: nat)
    requires NotCached(entries, image, offset)
    ensures !Maps(entries, image, offset, frame)
  {
  }

  lemma InsertProper(entries: seq<Entry>, at: Where, image: nat, offset: nat, frame: nat)
    requires Proper(entries) && Chosen(entries, image, offset, at) && image != 0 && frame != 0
    ensures Proper(Inserted(entries, at, Entry(image, offset, frame)))
  {
  }

  lemma InsertUsed(entries: seq<Entry>, at: Where, image: nat, offset: nat, frame: nat)
    requires Proper(entries) && Chosen(entries, image, offset, at) && image != 0 && frame != 0
    ensures var t := Inserted(entries, at, Entry(image, offset, frame));
      |Used(t)| == |Used(entries)| + if at.Slot? && entries[at.index].frame == 0 then 1 else 0
  {
    var t := Inserted(entries, at, Entry(image, offset, frame));
    if at.Slot? {
      if entries[at.index].frame == 0 {
        assert Used(t) == Used(entries) + {at.index};
        assert at.index !in Used(entries);
      } else {
        assert Used(t) == Used(entries);
      }
    } else {
      assert Used(t) == Used(entries);
    }
  }

  // ---------- How long a page stays ----------

  /** Some page other than that of `x` is inserted. */
  ghost predicate OtherInserted(entries: seq<Entry>, entries': seq<Entry>, x: Entry) {
    exists at, e :: InsertedOther(entries, entries', x, at, e)
  }

  ghost predicate InsertedOther(entries: seq<Entry>, entries': seq<Entry>, x: Entry, at: Where, e: Entry) {
    && Chosen(entries, e.image, e.offset, at) && entries' == Inserted(entries, at, e)
    && (e.image != x.image || e.offset != x.offset)
  }

  /** An entry stays at its place or moves up by one. */
  lemma MovesUp(entries: seq<Entry>, entries': seq<Entry>, x: Entry, i: nat) returns (j: nat)
    requires 0 < i < |entries| && entries[i] == x && x.frame != 0 && OtherInserted(entries, entries', x)
    ensures i - 1 <= j <= i && j < |entries'| == |entries| && entries'[j] == x
  {
    var at, e :| InsertedOther(entries, entries', x, at, e);
    j := if at.Oldest? then i - 1 else i;
  }

  /** A page behind all others stays cached through as many insertions of other pages as there are entries before it. */
  lemma {:induction false} StaysCached(states: seq<seq<Entry>>, x: Entry) returns (i: nat)
    requires 0 < |states| <= CAPACITY && |states[0]| == CAPACITY && states[0][CAPACITY - 1] == x && x.frame != 0
    requires forall k :: 0 <= k < |states| - 1 ==> OtherInserted(states[k], states[k + 1], x)
    ensures CAPACITY - |states| <= i < |states[|states| - 1]| == CAPACITY && states[|states| - 1][i] == x
    decreases |states|
  {
    if |states| == 1 {
      i := CAPACITY - 1;
    } else {
      var n := |states| - 2;
      var before := StaysCached(states[..n + 1], x);
      assert OtherInserted(states[n], states[n + 1], x);
      i := MovesUp(states[n], states[n + 1], x, before);
    }
  }

  /** The first entry of the frame is free, and no other entry has changed. */
  ghost predicate DropsFirst(entries: seq<Entry>, entries': seq<Entry>, frame: nat) {
    exists i :: 0 <= i < |entries| && entries[i].frame == frame && entries' == entries[i := FREE]
      && forall j :: 0 <= j < i ==> entries[j].frame != frame
  }

  class Cache {
    var entries: array<Entry>
    var count: nat
    var held: multiset<nat>

    ghost predicate Valid()
      reads this, entries
    {
      entries.Length == CAPACITY && Proper(entries[..]) && count == |Used(entries[..])|
    }

    /** Every reference handed over is that of an entry. */
    ghost predicate Conserved()
      reads this, entries
    {
      held == References(entries[..])
    }

    constructor ()
      ensures Valid() && Conserved() && held == multiset{} && fresh(entries)
      ensures forall i :: 0 <= i < CAPACITY ==> entries[i] == FREE
    {
      entries := new Entry[CAPACITY](_ => FREE);
      count, held := 0, multiset{};
      new;
      AllFree(entries[..]);
    }

    /** The cached frame of a page, or 0. */
    method Lookup(image: nat, offset: nat) returns (frame: nat)
      requires Valid()
      ensures frame != 0 ==> Maps(entries[..], image, offset, frame)
      ensures frame == 0 ==> image == 0 || forall f :: !Maps(entries[..], image, offset, f)
    {
      if image == 0 {
        return 0;
      }
      for i := 0 to CAPACITY
        invariant forall j :: 0 <= j < i ==>
          !(entries[j].image == image && entries[j].offset == offset && entries[j].frame != 0)
      {
        if entries[i].image == image && entries[i].offset == offset && entries[i].frame != 0 {
          assert entries[..][i] == Entry(image, offset, entries[i].frame);
          return entries[i].frame;
        }
      }
      return 0;
    }

    /** The entry of a page, or CAPACITY. */
    method FindKey(image: nat, offset: nat) returns (i: nat)
      requires entries.Length == CAPACITY
      ensures i <= CAPACITY && (i < CAPACITY ==> entries[i].image == image && entries[i].offset == offset)
      ensures i == CAPACITY ==> NotCached(entries[..], image, offset)
    {
      i := 0;
      while i < CAPACITY && !(entries[i].image == image && entries[i].offset == offset)
        invariant i <= CAPACITY
        invariant forall j :: 0 <= j < i ==> !(entries[j].image == image && entries[j].offset == offset)
      {
        i := i + 1;
      }
    }

    /** The first free entry, or CAPACITY. */
    method FindFree() returns (i: nat)
      requires entries.Length == CAPACITY
      ensures i <= CAPACITY && (i < CAPACITY ==> entries[i].frame == 0)
      ensures forall j :: 0 <= j < i ==> entries[j].frame != 0
    {
      i := 0;
      while i < CAPACITY && entries[i].frame != 0
        invariant i <= CAPACITY && forall j :: 0 <= j < i ==> entries[j].frame != 0
      {
        i := i + 1;
      }
    }

    /** Drops the first entry and moves the others up by one. */
    method Shift(e: Entry)
      requires entries.Length == CAPACITY
      modifies entries
      ensures entries[..] == old(entries[..])[1..] + [e]
    {
      var i := 1;
      while i < CAPACITY
        invariant 1 <= i <= CAPACITY
        invariant forall j :: 0 <= j < i - 1 ==> entries[j] == old(entries[j + 1])
        invariant forall j :: i - 1 <= j < CAPACITY ==> entries[j] == old(entries[j])
      {
        entries[i - 1] := entries[i];
        i := i + 1;
      }
      entries[CAPACITY - 1] := e;
    }

    /**
     Inserts a page; the caller hands one reference over. The references stay conserved
     except when the very same frame was already cached for the page: then the one that was
     handed over is never dropped.
     */
    method Insert(image: nat, offset: nat, frame: nat) returns (ok: bool, ghost at: Where)
      requires Valid() && Conserved()
      modifies this, entries
      ensures Valid() && entries == old(entries) && ok == (image != 0 && frame != 0)
      ensures !ok ==> entries[..] == old(entries[..]) && held == old(held)
      ensures ok ==> Chosen(old(entries[..]), image, offset, at)
      ensures ok ==> entries[..] == Inserted(old(entries[..]), at, Entry(image, offset, frame))
      ensures held == References(entries[..]) +
        (if ok && Maps(old(entries[..]), image, offset, frame) then multiset{frame} else multiset{})
    {
      at := Oldest;
      ok := image != 0 && frame != 0;
      if !ok {
        return;
      }
      ghost var before := entries[..];
      at := Store(Entry(image, offset, frame));
      InsertProper(before, at, image, offset, frame);
      InsertUsed(before, at, image, offset, frame);
    }

    /** The entry goes over that of the same page, into a free one, or to the end. */
    method Store(e: Entry) returns (ghost at: Where)
      requires entries.Length == CAPACITY && Proper(entries[..]) && Conserved() && e.image != 0 && e.frame != 0
      modifies this, entries
      ensures entries == old(entries) && Chosen(old(entries[..]), e.image, e.offset, at)
      ensures entries[..] == Inserted(old(entries[..]), at, e)
      ensures count == old(count) + if at.Slot? && old(entries[..])[at.index].frame == 0 then 1 else 0
      ensures held == References(entries[..]) +
        (if Maps(old(entries[..]), e.image, e.offset, e.frame) then multiset{e.frame} else multiset{})
    {
      at := Oldest;
      ghost var before := entries[..];
      held := held + multiset{e.frame};
      var i := FindKey(e.image, e.offset);
      if i < CAPACITY {
        at := Slot(i);
        OnlyEntry(before, i, e.frame);
        Overwrite(i, e);
      } else {
        UncachedMaps(before, e.image, e.offset, e.frame);
        i := FindFree();
        if i < CAPACITY {
          at := Slot(i);
          FillFree(i, e);
        } else {
          ReplaceOldest(e);
        }
      }
    }

    method Put(i: nat, e: Entry)
      requires i < entries.Length
      modifies entries
      ensures entries[..] == old(entries[..])[i := e]
    {
      entries[i] := e;
    }

    /** A free entry is taken. */
    method FillFree(i: nat, e: Entry)
      requires i < entries.Length && entries[i].frame == 0 && e.frame != 0
      requires held == References(entries[..]) + multiset{e.frame}
      modifies this, entries
      ensures entries == old(entries) && count == old(count) + 1 && entries[..] == old(entries[..])[i := e]
      ensures held == References(entries[..])
    {
      ReferencesMove(entries[..], i, e);
      Put(i, e);
      count := count + 1;
    }

    /** The cache is full: the first entry and its reference go. */
    method ReplaceOldest(e: Entry)
      requires entries.Length == CAPACITY && entries[0].frame != 0 && e.frame != 0
      requires held == References(entries[..]) + multiset{e.frame}
      modifies this, entries
      ensures entries == old(entries) && count == old(count) && entries[..] == old(entries[..])[1..] + [e]
      ensures held == References(entries[..])
    {
      ReferencesRotate(entries[..], e);
      held := held - multiset{entries[0].frame};
      Shift(e);
    }

    /** The page is cached already: a different frame takes the entry over. */
    method Overwrite(i: nat, e: Entry)
      requires i < entries.Length && entries[i].frame != 0 && e.frame != 0
      requires entries[i].image == e.image && entries[i].offset == e.offset
      requires held == References(entries[..]) + multiset{e.frame}
      modifies this, entries
      ensures entries == old(entries) && count == old(count) && entries[..] == old(entries[..])[i := e]
      ensures held == if old(entries[i]) == e then References(entries[..]) + multiset{e.frame}
        else References(entries[..])
    {
      ghost var before := entries[..];
      if entries[i].frame != e.frame {
        ReferencesMove(before, i, e);
        held := held - multiset{entries[i].frame};
        Put(i, e);
      } else {
        assert before == before[i := e];
      }
    }

    /** Drops the first entry that holds a frame, with its reference. */
    method Evict(frame: nat)
      requires Valid() && Conserved()
      modifies this, entries
      ensures Valid() && Conserved() && entries == old(entries)
      ensures frame != 0 && frame in old(held) ==> held == old(held) - multiset{frame}
      ensures frame != 0 && frame in old(held) ==> DropsFirst(old(entries[..]), entries[..], frame)
      ensures frame == 0 || frame !in old(held) ==> entries[..] == old(entries[..]) && held == old(held)
    {
      if frame == 0 {
        return;
      }
      ghost var before := entries[..];
      var i := FindFrame(frame);
      if i == CAPACITY {
        Unreferenced(before, frame);
        return;
      }
      UsedDrop(before, i);
      Referenced(before, i);
      Drop(i);
      count := count - 1;
      DropProper(before, i);
      assert entries[..] == before[i := FREE] && before[i].frame == frame;
    }

    method FindFrame(frame: nat) returns (i: nat)
      requires entries.Length == CAPACITY
      ensures i <= CAPACITY && (i < CAPACITY ==> entries[i].frame == frame)
      ensures forall j :: 0 <= j < i ==> entries[j].frame != frame
    {
      i := 0;
      while i < CAPACITY && entries[i].frame != frame
        invariant i <= CAPACITY && forall j :: 0 <= j < i ==> entries[j].frame != frame
      {
        i := i + 1;
      }
    }

    /** Frees an entry in use, and its reference. */
    method Drop(i: nat)
      requires i < entries.Length && entries[i].frame != 0 && held == References(entries[..])
      modifies this, entries
      ensures entries == old(entries) && count == old(count) && entries[..] == old(entries[..])[i := FREE]
      ensures held == References(entries[..]) && held == old(held) - multiset{old(entries[i].frame)}
    {
      ReferencesMove(entries[..], i, FREE);
      held := held - multiset{entries[i].frame};
      Put(i, FREE);
    }

    /** Drops every entry. */
    method Clear()
      requires Valid() && Conserved()
      modifies this, entries
      ensures Valid() && Conserved() && entries == old(entries)
      ensures held == multiset{} && count == 0 && forall i :: 0 <= i < CAPACITY ==> entries[i] == FREE
    {
      ClearAll();
      AllFree(entries[..]);
      count := 0;
    }

    method ClearAll()
      requires entries.Length == CAPACITY && held == References(entries[..]) && Cleared(entries[..], 0)
      modifies this, entries
      ensures entries == old(entries) && held == References(entries[..]) && Cleared(entries[..], CAPACITY)
    {
      var i := 0;
      while i < CAPACITY
        invariant i <= CAPACITY && entries == old(entries) && entries.Length == CAPACITY
        invariant held == References(entries[..])
        invariant Cleared(entries[..], i)
      {
        ClearOne(i);
        i := i + 1;
      }
    }

    method ClearOne(i: nat)
      requires i < entries.Length && held == References(entries[..]) && Cleared(entries[..], i)
      modifies this, entries
      ensures entries == old(entries) && held == References(entries[..]) && Cleared(entries[..], i + 1)
    {
      ClearMore(entries[..], i);
      if entries[i].frame != 0 {
        Drop(i);
      }
    }
  }

  ghost predicate Cleared(entries: seq<Entry>, n: nat) {
    && (forall j :: 0 <= j < |entries| && j < n ==> entries[j] == FREE)
    && (forall j :: 0 <= j < |entries| && entries[j].frame == 0 ==> entries[j] == FREE)
  }

  lemma ClearMore(entries: seq<Entry>, i: nat)
    requires i < |entries| && Cleared(entries, i)
    ensures Cleared(if entries[i].frame != 0 then entries[i := FREE] else entries, i + 1)
  {
  }

  lemma Referenced(entries: seq<Entry>, i: nat)
    requires i < |entries| && entries[i].frame != 0
    ensures entries[i].frame in References(entries)
  {
    ReferencesSet(entries, i, FREE);
    assert entries[i].frame in References(entries[i := FREE]) + One(entries[i]);
  }

  lemma DropProper(entries: seq<Entry>, i: nat)
    requires Proper(entries) && i < |entries|
    ensures Proper(entries[i := FREE])
  {
  }

  lemma {:induction false} Unreferenced(entries: seq<Entry>, frame: nat)
    requires frame != 0 && forall j :: 0 <= j < |entries| ==> entries[j].frame != frame
    ensures frame !in References(entries)
  {
    if entries != [] {
      Unreferenced(entries[1..], frame);
    }
  }

  lemma UsedDrop(entries: seq<Entry>, i: nat)
    requires i < |entries| && entries[i].frame != 0
    ensures |Used(entries[i := FREE])| == |Used(entries)| - 1
  {
    assert Used(entries[i := FREE]) == Used(entries) - {i};
  }

  lemma {:induction false} AllFree(entries: seq<Entry>)
    requires forall j :: 0 <= j < |entries| ==> entries[j] == FREE
    ensures References(entries) == multiset{} && Used(entries) == {} && Proper(entries)
  {
    if entries != [] {
      AllFree(entries[1..]);
    }
  }

  /** The same frame is inserted twice for the same page of a new cache: one reference to it stays for ever. */
  method InsertedTwice() returns (c: Cache)
    ensures c.Valid() && c.held == References(c.entries[..]) + multiset{7}
  {
    c := new Cache();
    ghost var none := c.entries[..];
    assert Entry(1, 0, 7) !in none;
    ghost var at, at';
    var ok;
    ok, at := c.Insert(1, 0, 7);
    InsertMaps(none, at, 1, 0, 7, 1, 0, 7);
    ok, at' := c.Insert(1, 0, 7);
  }
}

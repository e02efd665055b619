/**
 Demand loading of ELF images (xscore/kernel/process.c). An image page is built on
 the first fault: the file bytes of every loadable segment that meet the page are
 copied over zeros, and then the relative relocations whose target lies in the page
 are applied. The reference is an eager loader in the sense of chapter 5 of the
 System V gABI, which copies whole segments into one memory and then applies whole
 relocation tables.
 */
module Elf {
  import opened Bytes

  /** The window above the load base that a relocation target must lie in. */
  const LOAD_WINDOW: nat := 0x0100_0000

  const WORD32: nat := 0x1_0000_0000

  /** A PT_LOAD program header: where it goes, which file bytes it has, its size in memory and its permissions. */
  datatype Segment = Segment(vaddr: nat, offset: nat, filesz: nat, memsz: nat, write: bool, exec: bool)

  /** A table entry with an explicit addend (RELA), or one that adds to the word in place (REL). */
  datatype Relocation =
    | Rela(target: nat, relative: bool, addend: int)
    | Rel(target: nat, relative: bool)

  /** A parsed image: `word` is 4 for ELFCLASS32 and 8 for ELFCLASS64. */
  datatype Image = Image(bytes: seq<Byte>, word: nat, segments: seq<Segment>,
                         dynamic: bool, rela: seq<Relocation>, rel: seq<Relocation>, entry: nat)

  /** Where the memory of a segment ends: in ELFCLASS32 the sum is one of 32-bit words. */
  function End(word: nat, g: Segment): nat {
    if word == 4 then (g.vaddr + g.memsz) % WORD32 else g.vaddr + g.memsz
  }

  ghost predicate SegmentFits(im: Image, g: Segment) {
    g.offset + g.filesz <= |im.bytes|
  }

  /** What `load_elf_image` has checked before any page is demanded. */
  ghost predicate ValidImage(im: Image) {
    && (im.word == 4 || im.word == 8)
    && (forall g :: g in im.segments ==> SegmentFits(im, g))
    && (forall e :: e in im.rela + im.rel ==> e.target < LOAD_WINDOW)
    && (!im.dynamic ==> im.rela == [] && im.rel == [])
  }

  /** `memory` is long enough for everything an eager loader writes. */
  ghost predicate Extent(im: Image, size: nat) {
    && (forall g :: g in im.segments ==> g.vaddr + g.filesz <= size)
    && (forall e :: e in im.rela + im.rel ==> e.target + im.word <= size)
  }

  function FileBytes(im: Image, g: Segment): (d: seq<Byte>)
    requires SegmentFits(im, g)
    ensures |d| == g.filesz
  {
    im.bytes[g.offset..g.offset + g.filesz]
  }

  /** A sum of 32-bit or 64-bit words. */
  function Wrapped(value: int, word: nat): nat {
    if word == 4 then value % WORD32 else value % (WORD32 * WORD32)
  }

  /** The addend, or the word in place if the entry has none, and the load base. */
  function Sum(e: Relocation, base: nat, word: seq<Byte>): int {
    match e
    case Rela(_, _, addend) => base + addend
    case Rel(_, _) => base + Decode(word)
  }

  /** The word a relative relocation stores, given the word that is in place. */
  function FixedWord(e: Relocation, base: nat, word: seq<Byte>): (w: seq<Byte>)
    ensures |w| == |word|
  {
    Encode(Wrapped(Sum(e, base, word), |word|), |word|)
  }

  // ---------- The eager loader ----------

  function EagerSegments(im: Image, size: nat, n: nat): (memory: seq<Byte>)
    requires ValidImage(im) && Extent(im, size) && n <= |im.segments|
    ensures |memory| == size
  {
    if n == 0 then Zeros(size)
    else
      var g := im.segments[n - 1];
      Patch(EagerSegments(im, size, n - 1), g.vaddr, FileBytes(im, g))
  }

  function EagerStep(memory: seq<Byte>, e: Relocation, base: nat, word: nat): (r: seq<Byte>)
    requires e.target + word <= |memory|
    ensures |r| == |memory|
  {
    if !e.relative then memory
    else Patch(memory, e.target, FixedWord(e, base, memory[e.target..e.target + word]))
  }

  function EagerFix(memory: seq<Byte>, table: seq<Relocation>, base: nat, word: nat): (r: seq<Byte>)
    requires forall e :: e in table ==> e.target + word <= |memory|
    ensures |r| == |memory|
  {
    if table == [] then memory
    else EagerStep(EagerFix(memory, table[..|table| - 1], base, word), table[|table| - 1], base, word)
  }

  /** All segments, then the RELA table, then the REL table. */
  function Eager(im: Image, base: nat, size: nat): (memory: seq<Byte>)
    requires ValidImage(im) && Extent(im, size)
    ensures |memory| == size
  {
    EagerFix(EagerFix(EagerSegments(im, size, |im.segments|), im.rela, base, im.word),
             im.rel, base, im.word)
  }

  // ---------- The demand loader ----------

  function Max(a: int, b: int): int { if a < b then b else a }
  function Min(a: int, b: int): int { if a < b then a else b }

  /** The file bytes of one segment that meet the page at `off`. */
  function PageCopy(page: seq<Byte>, im: Image, off: nat, g: Segment): (r: seq<Byte>)
    requires |page| == PAGE && SegmentFits(im, g)
    ensures |r| == PAGE
  {
    var start := Max(g.vaddr, off);
    var end := Min(g.vaddr + g.filesz, off + PAGE);
    if end <= start then page
    else
      var from := g.offset + (start - g.vaddr);
      Patch(page, start - off, im.bytes[from..from + (end - start)])
  }

  function PageSegments(im: Image, off: nat, n: nat): (page: seq<Byte>)
    requires ValidImage(im) && n <= |im.segments|
    ensures |page| == PAGE
  {
    if n == 0 then Zeros(PAGE)
    else PageCopy(PageSegments(im, off, n - 1), im, off, im.segments[n - 1])
  }

  predicate InPage(e: Relocation, off: nat) {
    e.target / PAGE * PAGE == off
  }

  function PageStep(page: seq<Byte>, off: nat, e: Relocation, base: nat, word: nat): (r: Option<seq<Byte>>)
    requires |page| == PAGE
    ensures r.Some? ==> |r.value| == PAGE
  {
    if !InPage(e, off) || !e.relative then Some(page)
    else
      var within := e.target - off;
      if within + word > PAGE then None
      else Some(Patch(page, within, FixedWord(e, base, page[within..within + word])))
  }

  function PageFix(page: seq<Byte>, off: nat, table: seq<Relocation>, base: nat, word: nat)
    : (r: Option<seq<Byte>>)
    requires |page| == PAGE
    ensures r.Some? ==> |r.value| == PAGE
  {
    if table == [] then Some(page)
    else
      var before := PageFix(page, off, table[..|table| - 1], base, word);
      if before.None? then None else PageStep(before.value, off, table[|table| - 1], base, word)
  }

  /** The relocation bitmap bit of the page at `off`. */
  predicate HasRelocations(im: Image, off: nat) {
    exists e :: e in im.rela + im.rel && e.target / PAGE == off / PAGE
  }

  /** The page a fault at load offset `off` builds; None when the load is refused. */
  function LazyPage(im: Image, base: nat, off: nat): (r: Option<seq<Byte>>)
    requires ValidImage(im)
    ensures r.Some? ==> |r.value| == PAGE
  {
    var page := PageSegments(im, off, |im.segments|);
    if !im.dynamic || !HasRelocations(im, off) then Some(page)
    else
      var first := PageFix(page, off, im.rela, base, im.word);
      if first.None? then None else PageFix(first.value, off, im.rel, base, im.word)
  }

  // ---------- Lazy loading refines eager loading ----------

  /** A relative relocation of the page at `off` runs past the end of that page. */
  ghost predicate Straddles(table: seq<Relocation>, off: nat, word: nat) {
    exists e :: e in table && e.relative && InPage(e, off) && e.target + word > off + PAGE
  }

  lemma SliceInside(memory: seq<Byte>, off: nat, at: nat, data: seq<Byte>)
    requires off <= at && at + |data| <= off + PAGE <= |memory|
    ensures Patch(memory, at, data)[off..off + PAGE]
         == Patch(memory[off..off + PAGE], at - off, data)
  {
  }

  lemma SliceWord(memory: seq<Byte>, off: nat, at: nat, n: nat)
    requires off <= at && at + n <= off + PAGE <= |memory|
    ensures memory[off..off + PAGE][at - off..at - off + n] == memory[at..at + n]
  {
    var inner := memory[off..off + PAGE][at - off..at - off + n];
    assert forall i :: 0 <= i < n ==> inner[i] == memory[at + i];
  }

  lemma SliceOutside(memory: seq<Byte>, off: nat, at: nat, data: seq<Byte>)
    requires off + PAGE <= |memory| && at + |data| <= |memory|
    requires at + |data| <= off || off + PAGE <= at
    ensures Patch(memory, at, data)[off..off + PAGE] == memory[off..off + PAGE]
  {
  }

  /** The segment has a byte of the file for the address. */
  predicate Fills(g: Segment, a: nat) {
    g.vaddr <= a < g.vaddr + g.filesz
  }

  lemma CopyByte(page: seq<Byte>, im: Image, off: nat, g: Segment, i: nat)
    requires |page| == PAGE && SegmentFits(im, g) && i < PAGE
    ensures PageCopy(page, im, off, g)[i] ==
      if Fills(g, off + i) then im.bytes[g.offset + (off + i - g.vaddr)] else page[i]
  {
  }

  lemma FileByte(memory: seq<Byte>, im: Image, g: Segment, a: nat)
    requires SegmentFits(im, g) && g.vaddr + g.filesz <= |memory| && a < |memory|
    ensures Patch(memory, g.vaddr, FileBytes(im, g))[a] ==
      if Fills(g, a) then im.bytes[g.offset + (a - g.vaddr)] else memory[a]
  {
  }

  /** Cutting a page out commutes with copying one segment. */
  lemma SliceCopy(memory: seq<Byte>, im: Image, off: nat, g: Segment)
    requires SegmentFits(im, g) && g.vaddr + g.filesz <= |memory| && off + PAGE <= |memory|
    ensures Patch(memory, g.vaddr, FileBytes(im, g))[off..off + PAGE]
         == PageCopy(memory[off..off + PAGE], im, off, g)
  {
    var left := Patch(memory, g.vaddr, FileBytes(im, g));
    var right := PageCopy(memory[off..off + PAGE], im, off, g);
    forall i | 0 <= i < PAGE
      ensures left[off + i] == right[i]
    {
      CopyByte(memory[off..off + PAGE], im, off, g, i);
      FileByte(memory, im, g, off + i);
    }
  }

  lemma {:induction false} SliceSegments(im: Image, size: nat, off: nat, n: nat)
    requires ValidImage(im) && Extent(im, size) && n <= |im.segments| && off + PAGE <= size
    ensures EagerSegments(im, size, n)[off..off + PAGE] == PageSegments(im, off, n)
  {
    if n != 0 {
      SliceSegments(im, size, off, n - 1);
      SliceCopy(EagerSegments(im, size, n - 1), im, off, im.segments[n - 1]);
    }
  }

  /** Cutting a page out commutes with a relocation that does not straddle either end of it. */
  lemma SliceStep(memory: seq<Byte>, off: nat, e: Relocation, base: nat, word: nat)
    requires e.target + word <= |memory| && off + PAGE <= |memory|
    requires e.relative && InPage(e, off) ==> e.target + word <= off + PAGE
    requires e.relative && !InPage(e, off) ==> e.target + word <= off || off + PAGE <= e.target
    ensures PageStep(memory[off..off + PAGE], off, e, base, word)
         == Some(EagerStep(memory, e, base, word)[off..off + PAGE])
  {
    if e.relative && InPage(e, off) {
      SliceWord(memory, off, e.target, word);
      SliceInside(memory, off, e.target, FixedWord(e, base, memory[e.target..e.target + word]));
    } else if e.relative {
      SliceOutside(memory, off, e.target, FixedWord(e, base, memory[e.target..e.target + word]));
    }
  }

  lemma {:induction false} SliceFix(memory: seq<Byte>, off: nat, table: seq<Relocation>, base: nat, word: nat)
    requires forall e :: e in table ==> e.target + word <= |memory|
    requires off % PAGE == 0 && off + PAGE <= |memory| && 0 < word <= PAGE
    requires !Straddles(table, off, word)
    requires off >= PAGE ==> !Straddles(table, off - PAGE, word)
    ensures PageFix(memory[off..off + PAGE], off, table, base, word)
         == Some(EagerFix(memory, table, base, word)[off..off + PAGE])
  {
    if table != [] {
      var e := table[|table| - 1];
      var rest := table[..|table| - 1];
      assert forall x :: x in rest ==> x in table;
      SliceFix(memory, off, rest, base, word);
      if e.relative && !InPage(e, off) {
        NotInPage(e, off, table, word);
      }
      SliceStep(EagerFix(memory, rest, base, word), off, e, base, word);
    }
  }

  lemma NotInPage(e: Relocation, off: nat, table: seq<Relocation>, word: nat)
    requires e in table && e.relative && !InPage(e, off)
    requires off % PAGE == 0 && 0 < word <= PAGE
    requires off >= PAGE ==> !Straddles(table, off - PAGE, word)
    ensures e.target + word <= off || off + PAGE <= e.target
  {
    var k := e.target / PAGE;
    if e.target < off {
      assert k * PAGE <= off - PAGE;
      if k * PAGE == off - PAGE {
        assert InPage(e, off - PAGE);
      }
    }
  }

  /** The load of a page is refused exactly when a relocation of that page runs past its end. */
  lemma LoadRefused(im: Image, base: nat, off: nat)
    requires ValidImage(im) && off % PAGE == 0
    ensures LazyPage(im, base, off).None?
       <==> Straddles(im.rela, off, im.word) || Straddles(im.rel, off, im.word)
  {
    var page := PageSegments(im, off, |im.segments|);
    FixRefused(page, off, im.rela, base, im.word);
    var first := PageFix(page, off, im.rela, base, im.word);
    if first.Some? {
      FixRefused(first.value, off, im.rel, base, im.word);
    }
    if Straddles(im.rela, off, im.word) || Straddles(im.rel, off, im.word) {
      var e :| e in im.rela + im.rel && InPage(e, off);
      assert HasRelocations(im, off);
    }
  }

  lemma {:induction false} FixRefused(page: seq<Byte>, off: nat, table: seq<Relocation>, base: nat, word: nat)
    requires |page| == PAGE
    ensures PageFix(page, off, table, base, word).None? <==> Straddles(table, off, word)
  {
    if table != [] {
      var rest := table[..|table| - 1];
      var e := table[|table| - 1];
      FixRefused(page, off, rest, base, word);
      assert forall x :: x in table <==> x in rest || x == e;
    }
  }

  /** A table with no entry in the page leaves the page alone. */
  lemma {:induction false} FixElsewhere(page: seq<Byte>, off: nat, table: seq<Relocation>, base: nat, word: nat)
    requires |page| == PAGE
    requires forall e :: e in table ==> !InPage(e, off)
    ensures PageFix(page, off, table, base, word) == Some(page)
  {
    if table != [] {
      var rest := table[..|table| - 1];
      assert forall x :: x in rest ==> x in table;
      assert table[|table| - 1] in table;
      FixElsewhere(page, off, rest, base, word);
    }
  }

  /** The bitmap test only skips pages on which the tables would do nothing. */
  lemma BitmapSound(im: Image, base: nat, off: nat)
    requires ValidImage(im) && off % PAGE == 0
    requires !im.dynamic || !HasRelocations(im, off)
    ensures PageFix(PageSegments(im, off, |im.segments|), off, im.rela, base, im.word)
         == PageFix(PageSegments(im, off, |im.segments|), off, im.rel, base, im.word)
         == Some(PageSegments(im, off, |im.segments|))
  {
    var page := PageSegments(im, off, |im.segments|);
    forall e | e in im.rela + im.rel
      ensures !InPage(e, off)
    {
      assert e.target / PAGE != off / PAGE;
    }
    FixElsewhere(page, off, im.rela, base, im.word);
    FixElsewhere(page, off, im.rel, base, im.word);
  }

  /**
   Lazy loading refines eager loading: when no relative relocation runs across either
   end of the page, a fault builds exactly the bytes the eager loader has there.
   */
  lemma LazyIsEager(im: Image, base: nat, off: nat, size: nat)
    requires ValidImage(im) && Extent(im, size)
    requires off % PAGE == 0 && off + PAGE <= size
    requires !Straddles(im.rela, off, im.word) && !Straddles(im.rel, off, im.word)
    requires off >= PAGE ==> !Straddles(im.rela, off - PAGE, im.word) && !Straddles(im.rel, off - PAGE, im.word)
    ensures LazyPage(im, base, off) == Some(Eager(im, base, size)[off..off + PAGE])
  {
    var memory := EagerSegments(im, size, |im.segments|);
    SliceSegments(im, size, off, |im.segments|);
    SliceFix(memory, off, im.rela, base, im.word);
    SliceFix(EagerFix(memory, im.rela, base, im.word), off, im.rel, base, im.word);
    if !im.dynamic || !HasRelocations(im, off) {
      BitmapSound(im, base, off);
    }
  }

  /** A page without a bitmap bit has the same bytes at every load base, so it can be shared. */
  lemma UnrelocatedPageIsShared(im: Image, base: nat, base': nat, off: nat)
    requires ValidImage(im)
    requires !HasRelocations(im, off)
    ensures LazyPage(im, base, off) == LazyPage(im, base', off)
    ensures LazyPage(im, base, off).Some?
  {
  }

  // ---------- Relocations that run in from the page below ----------

  /** A relative relocation of the page below `off` that ends inside the page at `off`. */
  predicate RunsIn(e: Relocation, off: nat, word: nat) {
    e.relative && off >= PAGE && InPage(e, off - PAGE) && e.target + word > off
  }

  /** `table` without the entries that run in from the page below. */
  function Kept(table: seq<Relocation>, off: nat, word: nat): (r: seq<Relocation>)
    ensures forall e :: e in r <==> e in table && !RunsIn(e, off, word)
  {
    if table == [] then []
    else
      var e := table[|table| - 1];
      var rest := Kept(table[..|table| - 1], off, word);
      assert forall x :: x in table <==> x in table[..|table| - 1] || x == e;
      if RunsIn(e, off, word) then rest else rest + [e]
  }

  /** `im` without the relocations that run into the page at `off` from the page below. */
  function Without(im: Image, off: nat): (r: Image) {
    im.(rela := Kept(im.rela, off, im.word), rel := Kept(im.rel, off, im.word))
  }

  lemma {:induction false} FixKept(page: seq<Byte>, off: nat, table: seq<Relocation>, base: nat, word: nat)
    requires |page| == PAGE
    ensures PageFix(page, off, Kept(table, off, word), base, word) == PageFix(page, off, table, base, word)
  {
    if table != [] {
      var rest := table[..|table| - 1];
      var e := table[|table| - 1];
      FixKept(page, off, rest, base, word);
      var kept := Kept(table, off, word);
      if !RunsIn(e, off, word) {
        assert kept[..|kept| - 1] == Kept(rest, off, word);
      }
    }
  }

  /**
   For every image and every page that no relocation of its own runs out of, the demand
   loader builds exactly the eager page of the image without the relocations that run in
   from the page below.
   */
  lemma LazyIsEagerWithout(im: Image, base: nat, off: nat, size: nat)
    requires ValidImage(im) && Extent(im, size)
    requires off % PAGE == 0 && off + PAGE <= size
    requires !Straddles(im.rela, off, im.word) && !Straddles(im.rel, off, im.word)
    ensures ValidImage(Without(im, off)) && Extent(Without(im, off), size)
    ensures LazyPage(im, base, off) == Some(Eager(Without(im, off), base, size)[off..off + PAGE])
  {
    var im' := Without(im, off);
    var page := PageSegments(im, off, |im.segments|);
    var memory := EagerSegments(im', size, |im.segments|);
    SliceSegments(im', size, off, |im.segments|);
    SameSegments(im, im', off, |im.segments|);
    SliceFix(memory, off, im'.rela, base, im.word);
    SliceFix(EagerFix(memory, im'.rela, base, im.word), off, im'.rel, base, im.word);
    FixKept(page, off, im.rela, base, im.word);
    FixKept(EagerFix(memory, im'.rela, base, im.word)[off..off + PAGE], off, im.rel, base, im.word);
    if !im.dynamic || !HasRelocations(im, off) {
      BitmapSound(im, base, off);
    }
  }

  lemma {:induction false} SameSegments(im: Image, im': Image, off: nat, n: nat)
    requires ValidImage(im) && ValidImage(im') && im.segments == im'.segments && im.bytes == im'.bytes
    requires n <= |im.segments|
    ensures PageSegments(im, off, n) == PageSegments(im', off, n)
  {
    if n != 0 {
      SameSegments(im, im', off, n - 1);
    }
  }

  // ---------- The loader's own loops ----------

  method CopyFileRange(destination: array<Byte>, im: Image, off: nat, g: Segment)
    requires destination.Length == PAGE && SegmentFits(im, g)
    modifies destination
    ensures destination[..] == PageCopy(old(destination[..]), im, off, g)
  {
    var start := Max(g.vaddr, off);
    var end := Min(g.vaddr + g.filesz, off + PAGE);
    if end <= start { return; }
    var source := g.offset + (start - g.vaddr);
    var byte := 0;
    while byte < end - start
      invariant 0 <= byte <= end - start
      invariant forall i :: 0 <= i < PAGE && start - off <= i < start - off + byte ==>
        destination[i] == im.bytes[source + (i - (start - off))]
      invariant forall i :: 0 <= i < PAGE && !(start - off <= i < start - off + byte) ==>
        destination[i] == old(destination[i])
    {
      destination[start - off + byte] := im.bytes[source + byte];
      byte := byte + 1;
    }
  }

  method StoreWord(destination: array<Byte>, at: nat, word: seq<Byte>)
    requires at + |word| <= destination.Length
    modifies destination
    ensures destination[..] == Patch(old(destination[..]), at, word)
  {
    forall i | 0 <= i < |word| {
      destination[at + i] := word[i];
    }
  }

  lemma FixMore(initial: seq<Byte>, page: seq<Byte>, off: nat, table: seq<Relocation>, i: nat, base: nat, word: nat)
    requires |initial| == PAGE && |page| == PAGE && i < |table|
    requires PageFix(initial, off, table[..i], base, word) == Some(page)
    ensures PageFix(initial, off, table[..i + 1], base, word) == PageStep(page, off, table[i], base, word)
  {
    assert table[..i + 1][..i] == table[..i];
  }

  method ApplyOne(destination: array<Byte>, off: nat, e: Relocation, base: nat, word: nat) returns (ok: bool)
    requires destination.Length == PAGE
    modifies destination
    ensures PageStep(old(destination[..]), off, e, base, word) == if ok then Some(destination[..]) else None
  {
    if InPage(e, off) && e.relative {
      var within := e.target - off;
      if within + word > PAGE {
        return false;
      }
      StoreWord(destination, within, FixedWord(e, base, destination[within..within + word]));
    }
    return true;
  }

  method ApplyRelocations(destination: array<Byte>, off: nat, table: seq<Relocation>, base: nat, word: nat)
    returns (ok: bool)
    requires destination.Length == PAGE
    modifies destination
    ensures ok == PageFix(old(destination[..]), off, table, base, word).Some?
    ensures ok ==> destination[..] == PageFix(old(destination[..]), off, table, base, word).value
  {
    ghost var initial := destination[..];
    var i := 0;
    while i < |table|
      invariant 0 <= i <= |table|
      invariant PageFix(initial, off, table[..i], base, word) == Some(destination[..])
    {
      FixMore(initial, destination[..], off, table, i, base, word);
      ok := ApplyOne(destination, off, table[i], base, word);
      if !ok {
        FixRefused(initial, off, table[..i + 1], base, word);
        FixRefused(initial, off, table, base, word);
        return;
      }
      i := i + 1;
    }
    assert table[..i] == table;
    return true;
  }

  /** The relocation bitmap; the image is refused when a target is outside the load window. */
  method BuildBitmap(table: seq<Relocation>, seed: seq<bool>) returns (ok: bool, bits: seq<bool>)
    requires |seed| == LOAD_WINDOW / PAGE
    ensures ok <==> forall e :: e in table ==> e.target < LOAD_WINDOW
    ensures ok ==> |bits| == |seed|
    ensures ok ==> forall k :: 0 <= k < |bits| ==>
      (bits[k] <==> seed[k] || exists e :: e in table && e.target / PAGE == k)
  {
    bits := seed;
    var i := 0;
    while i < |table|
      invariant 0 <= i <= |table| && |bits| == |seed|
      invariant forall j :: 0 <= j < i ==> table[j].target < LOAD_WINDOW
      invariant forall k :: 0 <= k < |bits| ==>
        (bits[k] <==> seed[k] || exists j :: 0 <= j < i && table[j].target / PAGE == k)
    {
      if table[i].target >= LOAD_WINDOW { return false, bits; }
      bits := bits[table[i].target / PAGE := true];
      i := i + 1;
    }
    ok := true;
  }

  /** The bitmap of both tables: a bit is set exactly for the pages that have a relocation. */
  method PrepareBitmap(im: Image) returns (ok: bool, bits: seq<bool>)
    ensures ok <==> forall e :: e in im.rela + im.rel ==> e.target < LOAD_WINDOW
    ensures ok ==> |bits| == LOAD_WINDOW / PAGE
    ensures ok ==> forall off: nat :: off / PAGE < |bits| ==> (bits[off / PAGE] <==> HasRelocations(im, off))
  {
    ok, bits := BuildBitmap(im.rela, seq(LOAD_WINDOW / PAGE, _ => false));
    if ok {
      ok, bits := BuildBitmap(im.rel, bits);
    }
    assert forall e :: e in im.rela + im.rel <==> e in im.rela || e in im.rel;
  }

  /** The demand loader: its result is the specified page, and it is refused exactly when that is. */
  method LoadPage(im: Image, base: nat, off: nat, bits: seq<bool>) returns (r: Option<seq<Byte>>)
    requires ValidImage(im) && off % PAGE == 0 && off / PAGE < |bits|
    requires bits[off / PAGE] <==> HasRelocations(im, off)
    ensures r == LazyPage(im, base, off)
  {
    var destination := new Byte[PAGE](_ => 0);
    assert destination[..] == Zeros(PAGE);
    var i := 0;
    while i < |im.segments|
      invariant 0 <= i <= |im.segments|
      invariant destination[..] == PageSegments(im, off, i)
    {
      CopyFileRange(destination, im, off, im.segments[i]);
      i := i + 1;
    }
    if im.dynamic && bits[off / PAGE] {
      var ok := ApplyRelocations(destination, off, im.rela, base, im.word);
      if !ok { return None; }
      ok := ApplyRelocations(destination, off, im.rel, base, im.word);
      if !ok { return None; }
    }
    return Some(destination[..]);
  }
}

/**
 What a page of a loaded image holds, byte by byte and word by word: file bytes where a segment
 has them, zeros elsewhere, and under a relative relocation its addend, or the word in place, moved
 by the load base (xscore/kernel/process.c).
 */
module LoadedWords {
  import opened Bytes
  import opened Elf

  // ---------- File bytes ----------

  /** The last segment that has a byte for an address decides it. */
  lemma {:induction false} SegmentByte(im: Image, off: nat, n: nat, k: nat, i: nat)
    requires ValidImage(im) && k < n <= |im.segments| && i < PAGE && Fills(im.segments[k], off + i)
    requires forall j :: k < j < n ==> !Fills(im.segments[j], off + i)
    ensures var g := im.segments[k];
      SegmentFits(im, g) && PageSegments(im, off, n)[i] == im.bytes[g.offset + (off + i - g.vaddr)]
  {
    CopyByte(PageSegments(im, off, n - 1), im, off, im.segments[n - 1], i);
    if k < n - 1 {
      SegmentByte(im, off, n - 1, k, i);
    }
  }

  /** An address that no segment has a byte for is zero. */
  lemma {:induction false} NoSegmentByte(im: Image, off: nat, n: nat, i: nat)
    requires ValidImage(im) && n <= |im.segments| && i < PAGE
    requires forall j :: 0 <= j < n ==> !Fills(im.segments[j], off + i)
    ensures PageSegments(im, off, n)[i] == 0
  {
    if n != 0 {
      NoSegmentByte(im, off, n - 1, i);
      CopyByte(PageSegments(im, off, n - 1), im, off, im.segments[n - 1], i);
    }
  }

  // ---------- One relocation among others ----------

  /** The words of two relocations of the page share no byte. */
  predicate Apart(e: Relocation, at: nat, off: nat, word: nat) {
    e.relative && InPage(e, off) ==> e.target + word <= at || at + word <= e.target
  }

  /** No other entry of the table touches the word of entry `i`. */
  ghost predicate Sole(table: seq<Relocation>, i: nat, off: nat, word: nat)
    requires i < |table|
  {
    forall j :: 0 <= j < |table| && j != i ==> Apart(table[j], table[i].target, off, word)
  }

  function Drop(table: seq<Relocation>, i: nat): (r: seq<Relocation>)
    requires i < |table|
    ensures |r| == |table| - 1
    ensures forall j :: 0 <= j < |r| ==> r[j] == table[if j < i then j else j + 1]
  {
    table[..i] + table[i + 1..]
  }

  lemma PatchesCommute(page: seq<Byte>, a: nat, x: seq<Byte>, b: nat, y: seq<Byte>)
    requires a + |x| <= |page| && b + |y| <= |page| && (a + |x| <= b || b + |y| <= a)
    ensures Patch(Patch(page, a, x), b, y) == Patch(Patch(page, b, y), a, x)
  {
  }

  lemma PatchElsewhere(page: seq<Byte>, a: nat, x: seq<Byte>, b: nat, n: nat)
    requires a + |x| <= |page| && b + n <= |page| && (a + |x| <= b || b + n <= a)
    ensures Patch(page, a, x)[b..b + n] == page[b..b + n]
  {
  }

  lemma PatchThere(page: seq<Byte>, a: nat, x: seq<Byte>)
    requires a + |x| <= |page|
    ensures Patch(page, a, x)[a..a + |x|] == x
  {
  }

  /** Whether `after` is `before` with `data` at `at`, and `before` has there what `page` has. */
  ghost predicate Carried(page: seq<Byte>, before: Option<seq<Byte>>, after: Option<seq<Byte>>, at: nat,
      data: seq<Byte>)
    requires at + |data| <= |page|
  {
    if before.None? then after.None?
    else
      && |before.value| == |page| && after == Some(Patch(before.value, at, data))
      && before.value[at..at + |data|] == page[at..at + |data|]
  }

  lemma WordCarried(page: seq<Byte>, w: nat, e: Relocation, base: nat, at: nat, data: seq<Byte>,
      before: Option<seq<Byte>>, after: Option<seq<Byte>>)
    requires w + |data| <= |page| && at + |data| <= |page| && (w + |data| <= at || at + |data| <= w)
    requires before == Some(Patch(page, w, FixedWord(e, base, page[w..w + |data|])))
    requires var patched := Patch(page, at, data);
      after == Some(Patch(patched, w, FixedWord(e, base, patched[w..w + |data|])))
    ensures Carried(page, before, after, at, data)
  {
    var word := |data|;
    PatchElsewhere(page, at, data, w, word);
    var fixed := FixedWord(e, base, page[w..w + word]);
    PatchElsewhere(page, w, fixed, at, word);
    PatchesCommute(page, at, data, w, fixed);
  }

  lemma StepIs(page: seq<Byte>, off: nat, e: Relocation, base: nat, word: nat, w: nat)
    requires |page| == PAGE && e.relative && InPage(e, off) && w == e.target - off
    ensures w + word > PAGE ==> PageStep(page, off, e, base, word) == None
    ensures w + word <= PAGE ==>
      PageStep(page, off, e, base, word) == Some(Patch(page, w, FixedWord(e, base, page[w..w + word])))
  {
  }

  /** A relocation elsewhere and a change of a word commute. */
  lemma StepApart(page: seq<Byte>, off: nat, e: Relocation, base: nat, at: nat, data: seq<Byte>)
    requires |page| == PAGE && off <= at && at - off + |data| <= PAGE && Apart(e, at, off, |data|)
    ensures Carried(page, PageStep(page, off, e, base, |data|),
                    PageStep(Patch(page, at - off, data), off, e, base, |data|), at - off, data)
  {
    if e.relative && InPage(e, off) {
      StepHere(page, off, e, base, e.target - off, at - off, data);
    } else {
      PatchThere(page, at - off, data);
    }
  }

  lemma StepHere(page: seq<Byte>, off: nat, e: Relocation, base: nat, w: nat, at: nat, data: seq<Byte>)
    requires |page| == PAGE && at + |data| <= PAGE && (w + |data| <= at || at + |data| <= w)
    requires e.relative && InPage(e, off) && w == e.target - off
    ensures Carried(page, PageStep(page, off, e, base, |data|), PageStep(Patch(page, at, data), off, e, base, |data|),
                    at, data)
  {
    var before := PageStep(page, off, e, base, |data|);
    var after := PageStep(Patch(page, at, data), off, e, base, |data|);
    StepIs(page, off, e, base, |data|, w);
    StepIs(Patch(page, at, data), off, e, base, |data|, w);
    if w + |data| <= PAGE {
      WordCarried(page, w, e, base, at, data, before, after);
    }
  }

  /** Relocations elsewhere leave a word alone. */
  lemma {:induction false} FixApart(page: seq<Byte>, off: nat, table: seq<Relocation>, base: nat, word: nat, at: nat)
    requires |page| == PAGE && off <= at && at - off + word <= PAGE
    requires forall j :: 0 <= j < |table| ==> Apart(table[j], at, off, word)
    ensures var r := PageFix(page, off, table, base, word);
      r.Some? ==> r.value[at - off..at - off + word] == page[at - off..at - off + word]
  {
    if table != [] {
      var rest := table[..|table| - 1];
      FixApart(page, off, rest, base, word, at);
      var before := PageFix(page, off, rest, base, word);
      if before.Some? {
        StepApart(before.value, off, table[|table| - 1], base, at, Zeros(word));
      }
    }
  }

  /**
   A relocation whose word no other touches can be taken out of its table: the page is the one that
   the other entries make, with this word fixed from what the file has in place.
   */
  lemma {:induction false} FixOne(page: seq<Byte>, off: nat, table: seq<Relocation>, i: nat, base: nat, word: nat)
    requires |page| == PAGE && i < |table| && table[i].relative && InPage(table[i], off)
    requires Sole(table, i, off, word) && PageFix(page, off, table, base, word).Some?
    ensures FixedAlone(page, off, table[i], Drop(table, i), PageFix(page, off, table, base, word), base, word)
  {
    var n := |table| - 1;
    var rest := table[..n];
    if i == n {
      assert Drop(table, i) == rest;
      assert forall j :: 0 <= j < n ==> Apart(rest[j], table[i].target, off, word);
      FixLast(page, off, rest, table[n], base, word);
    } else {
      assert Sole(rest, i, off, word);
      FixOne(page, off, rest, i, base, word);
      assert Apart(table[n], table[i].target, off, word);
      var dropped := Drop(table, i);
      assert dropped[..n - 1] == Drop(rest, i);
      assert dropped[n - 1] == table[n];
      FixNext(page, off, table[i], dropped, PageFix(page, off, rest, base, word), base, word);
    }
  }

  /** `r` is what the entries of `others` make of the page, with the word of `e` fixed from what was in place. */
  ghost predicate FixedAlone(page: seq<Byte>, off: nat, e: Relocation, others: seq<Relocation>, r: Option<seq<Byte>>,
      base: nat, word: nat)
    requires |page| == PAGE
  {
    && off <= e.target && e.target - off + word <= PAGE
    && var w, before := e.target - off, PageFix(page, off, others, base, word);
       before.Some? && r == Some(Patch(before.value, w, FixedWord(e, base, page[w..w + word])))
  }

  lemma FixLast(page: seq<Byte>, off: nat, rest: seq<Relocation>, e: Relocation, base: nat, word: nat)
    requires |page| == PAGE && e.relative && InPage(e, off)
    requires forall j :: 0 <= j < |rest| ==> Apart(rest[j], e.target, off, word)
    requires var before := PageFix(page, off, rest, base, word);
      before.Some? && PageStep(before.value, off, e, base, word).Some?
    ensures var before := PageFix(page, off, rest, base, word);
      FixedAlone(page, off, e, rest, PageStep(before.value, off, e, base, word), base, word)
  {
    StepIs(PageFix(page, off, rest, base, word).value, off, e, base, word, e.target - off);
    FixApart(page, off, rest, base, word, e.target);
  }

  lemma FixNext(page: seq<Byte>, off: nat, e: Relocation, others: seq<Relocation>, r: Option<seq<Byte>>, base: nat,
      word: nat)
    requires |page| == PAGE && others != [] && r.Some? && |r.value| == PAGE
    requires FixedAlone(page, off, e, others[..|others| - 1], r, base, word)
    requires Apart(others[|others| - 1], e.target, off, word)
    requires PageStep(r.value, off, others[|others| - 1], base, word).Some?
    ensures FixedAlone(page, off, e, others, PageStep(r.value, off, others[|others| - 1], base, word), base, word)
  {
    var w, n := e.target - off, |others| - 1;
    var before := PageFix(page, off, others[..n], base, word).value;
    var fixed := FixedWord(e, base, page[w..w + word]);
    StepApart(before, off, others[n], base, e.target, fixed);
    assert PageFix(page, off, others, base, word) == PageStep(before, off, others[n], base, word);
  }

  /** One table after another is the two in one. */
  lemma {:induction false} FixBoth(page: seq<Byte>, off: nat, a: seq<Relocation>, b: seq<Relocation>, base: nat,
      word: nat)
    requires |page| == PAGE
    ensures PageFix(page, off, a + b, base, word) ==
      var first := PageFix(page, off, a, base, word);
      if first.None? then None else PageFix(first.value, off, b, base, word)
  {
    if b == [] {
      assert a + b == a;
    } else {
      var n := |b| - 1;
      assert (a + b)[..|a| + n] == a + b[..n];
      FixBoth(page, off, a, b[..n], base, word);
    }
  }

  /** A page of the image is its file bytes under both tables, the one with addends first. */
  lemma LazyIsFixed(im: Image, base: nat, off: nat)
    requires ValidImage(im) && off % PAGE == 0
    ensures LazyPage(im, base, off) ==
      PageFix(PageSegments(im, off, |im.segments|), off, im.rela + im.rel, base, im.word)
  {
    FixBoth(PageSegments(im, off, |im.segments|), off, im.rela, im.rel, base, im.word);
    if !im.dynamic || !HasRelocations(im, off) {
      BitmapSound(im, base, off);
    }
  }

  // ---------- The words a program finds ----------

  /** The word at an address of a page that has been built. */
  function WordAt(page: seq<Byte>, off: nat, a: nat, word: nat): nat
    requires off <= a && a - off + word <= |page|
  {
    Decode(page[a - off..a - off + word])
  }

  /** A sum as a word of the image has it. */
  function Reduced(value: int, word: nat): nat {
    if word == 4 then value % 0x1_0000_0000 else value % 0x1_0000_0000_0000_0000
  }

  lemma WordSizes()
    ensures Modulus(4) == 0x1_0000_0000 && Modulus(8) == 0x1_0000_0000_0000_0000
  {
    assert Modulus(4) == 256 * (256 * (256 * (256 * Modulus(0))));
    assert Modulus(8) == 256 * (256 * (256 * (256 * Modulus(4))));
  }

  /** Reading back a stored sum gives it in as many bits as the word has. */
  lemma Reread(value: int, word: nat)
    requires word == 4 || word == 8
    ensures Decode(Encode(Wrapped(value, word), word)) == Reduced(value, word)
  {
    WordSizes();
    DecodeEncode(Wrapped(value, word), word);
  }

  /** `found` is the addend, or the word `inPlace` of the file if the entry has no addend, moved by the load base. */
  ghost predicate Moved(e: Relocation, base: nat, inPlace: nat, found: nat, word: nat) {
    match e
    case Rela(_, _, addend) => found == Reduced(base + addend, word)
    case Rel(_, _) => found == Reduced(base + inPlace, word)
  }

  lemma FixedWordIs(e: Relocation, base: nat, bytes: seq<Byte>)
    requires |bytes| == 4 || |bytes| == 8
    ensures Moved(e, base, Decode(bytes), Decode(FixedWord(e, base, bytes)), |bytes|)
  {
    Reread(Sum(e, base, bytes), |bytes|);
  }

  /**
   Under a relative relocation whose word no other touches, a program finds its addend plus the load
   base, or, if it has none, the word of the file plus the load base, in as many bits as the word has.
   */
  lemma RelocatedWord(im: Image, base: nat, off: nat, i: nat)
    requires ValidImage(im) && off % PAGE == 0 && i < |im.rela + im.rel|
    requires (im.rela + im.rel)[i].relative && InPage((im.rela + im.rel)[i], off)
    requires Sole(im.rela + im.rel, i, off, im.word) && LazyPage(im, base, off).Some?
    ensures var e := (im.rela + im.rel)[i];
      && e.target - off + im.word <= PAGE
      && Moved(e, base, WordAt(PageSegments(im, off, |im.segments|), off, e.target, im.word),
               WordAt(LazyPage(im, base, off).value, off, e.target, im.word), im.word)
  {
    var e := (im.rela + im.rel)[i];
    var page := PageSegments(im, off, |im.segments|);
    LazyIsFixed(im, base, off);
    FixOne(page, off, im.rela + im.rel, i, base, im.word);
    FixedAloneIs(page, off, e, Drop(im.rela + im.rel, i), LazyPage(im, base, off), base, im.word);
  }

  lemma FixedAloneIs(page: seq<Byte>, off: nat, e: Relocation, others: seq<Relocation>, r: Option<seq<Byte>>, base: nat,
      word: nat)
    requires |page| == PAGE && r.Some? && |r.value| == PAGE && FixedAlone(page, off, e, others, r, base, word)
    requires word == 4 || word == 8
    ensures
      Moved(e, base, WordAt(page, off, e.target, word), WordAt(r.value, off, e.target, word), word)
  {
    var w := e.target - off;
    var bytes := page[w..w + word];
    FixedWordIs(e, base, bytes);
    PatchThere(PageFix(page, off, others, base, word).value, w, FixedWord(e, base, bytes));
  }

  lemma Shifted(value: int, base: nat, word: nat)
    ensures Reduced(base + value, word) == Reduced(Reduced(0 + value, word) + base, word)
  {
    if word == 4 {
      Shifted32(value, base);
    } else {
      Shifted64(value, base);
    }
  }

  lemma Shifted32(value: int, base: nat)
    ensures (base + value) % 0x1_0000_0000 == (value % 0x1_0000_0000 + base) % 0x1_0000_0000
  {
  }

  lemma Shifted64(value: int, base: nat)
    ensures (base + value) % 0x1_0000_0000_0000_0000
         == (value % 0x1_0000_0000_0000_0000 + base) % 0x1_0000_0000_0000_0000
  {
  }

  /** Whatever its kind, a relocated word moves with the load base. */
  lemma WordMovesWithBase(im: Image, base: nat, off: nat, i: nat)
    requires ValidImage(im) && off % PAGE == 0 && i < |im.rela + im.rel|
    requires (im.rela + im.rel)[i].relative && InPage((im.rela + im.rel)[i], off)
    requires Sole(im.rela + im.rel, i, off, im.word) && LazyPage(im, base, off).Some?
    ensures LazyPage(im, 0, off).Some? && (im.rela + im.rel)[i].target - off + im.word <= PAGE
    ensures var a := (im.rela + im.rel)[i].target;
      WordAt(LazyPage(im, base, off).value, off, a, im.word)
        == Reduced(WordAt(LazyPage(im, 0, off).value, off, a, im.word) + base, im.word)
  {
    LoadRefused(im, base, off);
    LoadRefused(im, 0, off);
    RelocatedWord(im, base, off, i);
    RelocatedWord(im, 0, off, i);
    var e := (im.rela + im.rel)[i];
    var page := PageSegments(im, off, |im.segments|);
    Shifted(if e.Rela? then e.addend else WordAt(page, off, e.target, im.word), base, im.word);
  }

  /** An entry without an addend is one whose addend is the word in place. */
  lemma InPlaceIsAddend(im: Image, im': Image, base: nat, off: nat, i: nat)
    requires ValidImage(im) && off % PAGE == 0 && i < |im.rel| && Sole(im.rela + im.rel, |im.rela| + i, off, im.word)
    requires im.rel[i].Rel? && im.rel[i].relative && InPage(im.rel[i], off) && LazyPage(im, base, off).Some?
    ensures im.rel[i].target - off + im.word <= PAGE
    ensures
      var a := WordAt(PageSegments(im, off, |im.segments|), off, im.rel[i].target, im.word);
      im' == im.(rela := im.rela + [Rela(im.rel[i].target, true, a)], rel := Drop(im.rel, i)) ==>
        ValidImage(im') && LazyPage(im', base, off) == LazyPage(im, base, off)
  {
    var e := im.rel[i];
    var page := PageSegments(im, off, |im.segments|);
    var table := im.rela + im.rel;
    LazyIsFixed(im, base, off);
    assert table[|im.rela| + i] == e;
    FixOne(page, off, table, |im.rela| + i, base, im.word);
    var a := WordAt(page, off, e.target, im.word);
    if im' == im.(rela := im.rela + [Rela(e.target, true, a)], rel := Drop(im.rel, i)) {
      MovedEntry(im, im', base, off, i, a);
    }
  }

  lemma MovedEntry(im: Image, im': Image, base: nat, off: nat, i: nat, a: nat)
    requires ValidImage(im) && off % PAGE == 0 && i < |im.rel| && Sole(im.rela + im.rel, |im.rela| + i, off, im.word)
    requires im.rel[i].Rel? && im.rel[i].relative && InPage(im.rel[i], off) && LazyPage(im, base, off).Some?
    requires im.rel[i].target - off + im.word <= PAGE
    requires a == WordAt(PageSegments(im, off, |im.segments|), off, im.rel[i].target, im.word)
    requires im' == im.(rela := im.rela + [Rela(im.rel[i].target, true, a)], rel := Drop(im.rel, i))
    ensures ValidImage(im') && LazyPage(im', base, off) == LazyPage(im, base, off)
  {
    SameTargets(im, im', i, a);
    SameSegments(im, im', off, |im.segments|);
    LazyIsFixed(im, base, off);
    LazyIsFixed(im', base, off);
    TablesMoved(PageSegments(im, off, |im.segments|), im, im', base, off, i, a);
  }

  lemma TablesMoved(page: seq<Byte>, im: Image, im': Image, base: nat, off: nat, i: nat, a: nat)
    requires |page| == PAGE && ValidImage(im)
    requires i < |im.rel| && Sole(im.rela + im.rel, |im.rela| + i, off, im.word)
    requires im.rel[i].Rel? && im.rel[i].relative && InPage(im.rel[i], off)
    requires PageFix(page, off, im.rela + im.rel, base, im.word).Some?
    requires im.rel[i].target - off + im.word <= PAGE && a == WordAt(page, off, im.rel[i].target, im.word)
    requires im' == im.(rela := im.rela + [Rela(im.rel[i].target, true, a)], rel := Drop(im.rel, i))
    ensures PageFix(page, off, im'.rela + im'.rel, base, im.word) == PageFix(page, off, im.rela + im.rel, base, im.word)
  {
    var table, table' := im.rela + im.rel, im'.rela + im'.rel;
    SameTargets(im, im', i, a);
    SoleMoved(im, im', off, i, a);
    FixRefused(page, off, table, base, im.word);
    FixRefused(page, off, table', base, im.word);
    SameDrop(im, im', i, a);
    assert table[|im.rela| + i] == im.rel[i] && table'[|im.rela|] == Rela(im.rel[i].target, true, a);
    TablesAgree(page, off, table, |im.rela| + i, table', |im.rela|, base, im.word);
  }

  lemma TablesAgree(page: seq<Byte>, off: nat, table: seq<Relocation>, i: nat, table': seq<Relocation>, i': nat,
      base: nat, word: nat)
    requires |page| == PAGE && i < |table| && i' < |table'| && Drop(table, i) == Drop(table', i')
    requires Sole(table, i, off, word) && Sole(table', i', off, word)
    requires PageFix(page, off, table, base, word).Some? && PageFix(page, off, table', base, word).Some?
    requires table[i].Rel? && table[i].relative && InPage(table[i], off) && table[i].target - off + word <= PAGE
    requires table'[i'] == Rela(table[i].target, true, WordAt(page, off, table[i].target, word))
    ensures PageFix(page, off, table, base, word) == PageFix(page, off, table', base, word)
  {
    FixOne(page, off, table, i, base, word);
    FixOne(page, off, table', i', base, word);
    FixedAloneSame(page, off, table[i], table'[i'], Drop(table, i), PageFix(page, off, table, base, word),
                   PageFix(page, off, table', base, word), base, word);
  }

  lemma FixedAloneSame(page: seq<Byte>, off: nat, e: Relocation, e': Relocation, others: seq<Relocation>,
      r: Option<seq<Byte>>, r': Option<seq<Byte>>, base: nat, word: nat)
    requires |page| == PAGE && FixedAlone(page, off, e, others, r, base, word) && e.Rel? && e'.Rela?
    requires FixedAlone(page, off, e', others, r', base, word)
    requires e'.target == e.target && e'.addend == WordAt(page, off, e.target, word)
    ensures r == r'
  {
    var w := e.target - off;
    assert FixedWord(e, base, page[w..w + word]) == FixedWord(e', base, page[w..w + word]);
  }

  lemma SameDrop(im: Image, im': Image, i: nat, a: nat)
    requires i < |im.rel|
    requires im' == im.(rela := im.rela + [Rela(im.rel[i].target, true, a)], rel := Drop(im.rel, i))
    ensures Drop(im.rela + im.rel, |im.rela| + i) == Drop(im'.rela + im'.rel, |im.rela|)
  {
  }

  lemma SameTargets(im: Image, im': Image, i: nat, a: nat)
    requires ValidImage(im) && i < |im.rel|
    requires im' == im.(rela := im.rela + [Rela(im.rel[i].target, true, a)], rel := Drop(im.rel, i))
    ensures ValidImage(im')
    ensures im.rel[i].relative ==> forall e :: e in im'.rela + im'.rel ==>
      exists d :: d in im.rela + im.rel && d.target == e.target && d.relative == e.relative
  {
    assert im.rel[i] in im.rela + im.rel;
    forall e | e in im'.rela + im'.rel
      ensures e.target < LOAD_WINDOW
      ensures im.rel[i].relative ==>
        exists d :: d in im.rela + im.rel && d.target == e.target && d.relative == e.relative
    {
      if e in im.rela {
        assert e in im.rela + im.rel;
      } else if e in im'.rel {
        assert e in im.rel && e in im.rela + im.rel;
      }
    }
  }

  lemma SoleMoved(im: Image, im': Image, off: nat, i: nat, a: nat)
    requires i < |im.rel| && Sole(im.rela + im.rel, |im.rela| + i, off, im.word)
    requires im' == im.(rela := im.rela + [Rela(im.rel[i].target, true, a)], rel := Drop(im.rel, i))
    ensures Sole(im'.rela + im'.rel, |im.rela|, off, im.word)
  {
    var table, table' := im.rela + im.rel, im'.rela + im'.rel;
    forall j | 0 <= j < |table'| && j != |im.rela|
      ensures Apart(table'[j], table'[|im.rela|].target, off, im.word)
    {
      var k := if j < |im.rela| || j - 1 - |im.rela| >= i then j else j - 1;
      assert table'[j] == table[k];
    }
  }

  /** A byte that no relocation touches is the byte of the file, or zero. */
  lemma UntouchedByte(im: Image, base: nat, off: nat, i: nat)
    requires ValidImage(im) && off % PAGE == 0 && i < PAGE && LazyPage(im, base, off).Some?
    requires forall e :: e in im.rela + im.rel && e.relative && InPage(e, off) ==>
      off + i < e.target || e.target + im.word <= off + i
    ensures LazyPage(im, base, off).value[i] == PageSegments(im, off, |im.segments|)[i]
  {
    LazyIsFixed(im, base, off);
    ByteApart(PageSegments(im, off, |im.segments|), off, im.rela + im.rel, base, im.word, i);
  }

  lemma {:induction false} ByteApart(page: seq<Byte>, off: nat, table: seq<Relocation>, base: nat, word: nat, i: nat)
    requires |page| == PAGE && i < PAGE
    requires forall e :: e in table && e.relative && InPage(e, off) ==> off + i < e.target || e.target + word <= off + i
    ensures var r := PageFix(page, off, table, base, word); r.Some? ==> r.value[i] == page[i]
  {
    if table != [] {
      var rest := table[..|table| - 1];
      assert forall e :: e in rest ==> e in table;
      ByteApart(page, off, rest, base, word, i);
      assert table[|table| - 1] in table;
    }
  }
}

/**
 The loops of tools/mkinitramfs.py and xscore/kernel/initramfs.c around the archive format:
 reading entry by entry, putting the entries in mount order, and writing them out.
 */
module InitramfsTool {
  import opened Bytes
  import opened Initramfs
  import opened Utf8

  // ---------- Reading ----------

  /** One refused entry refuses every longer table. */
  lemma {:induction false} RefusedStays(archive: seq<Byte>, i: nat, n: nat, tableEnd: nat, strict: bool)
    requires i < n && HEADER + ENTRY * n <= |archive| && HEADER + ENTRY * (i + 1) <= |archive|
    requires EntryAt(archive, i, tableEnd, strict).None?
    ensures ParseTable(archive, n, tableEnd, strict).None?
    decreases n
  {
    if i < n - 1 {
      RefusedStays(archive, i, n - 1, tableEnd, strict);
    }
  }

  lemma RowInside(i: nat, n: nat)
    requires i < n
    ensures HEADER + ENTRY * (i + 1) <= HEADER + ENTRY * n
  {
  }

  /** The tool's `read_archive`: the whole archive, or nothing. */
  method ReadArchive(archive: seq<Byte>) returns (r: Option<seq<Entry>>)
    ensures r == Parse(archive, true)
  {
    if |archive| < HEADER || archive[..8] != Magic() || Decode(archive[8..12]) != 1 {
      return None;
    }
    var n := Decode(archive[12..16]);
    var end := HEADER + ENTRY * n;
    if end > |archive| || Decode(archive[16..24]) != |archive| {
      return None;
    }
    r := Some([]);
    var i := 0;
    while i < n && r.Some?
      invariant i <= n && HEADER + ENTRY * i <= |archive|
      invariant if r.Some? then ParseTable(archive, i, end, true) == r else ParseTable(archive, n, end, true).None?
    {
      RowInside(i, n);
      r := ReadRow(archive, i, n, end, r.value);
      i := i + 1;
    }
  }

  /** One more row of the table, or none at all. */
  method ReadRow(archive: seq<Byte>, i: nat, n: nat, end: nat, entries: seq<Entry>) returns (r: Option<seq<Entry>>)
    requires i < n && HEADER + ENTRY * i <= HEADER + ENTRY * (i + 1) <= HEADER + ENTRY * n <= |archive|
    requires ParseTable(archive, i, end, true) == Some(entries)
    ensures if r.Some? then ParseTable(archive, i + 1, end, true) == r else ParseTable(archive, n, end, true).None?
  {
    var e := EntryAt(archive, i, end, true);
    if e.None? {
      RefusedStays(archive, i, n, end, true);
      return None;
    }
    return Some(entries + [e.value]);
  }

  /** A file whose payload the mount accepts although it lies outside the archive. */
  predicate Escapes(archive: seq<Byte>, i: nat)
    requires HEADER + ENTRY * (i + 1) <= |archive|
  {
    var raw := archive[HEADER + ENTRY * i..HEADER + ENTRY * (i + 1)];
    Decode(raw[128..132]) == 2 && PayloadAccepted(archive, raw) && RowOffset(raw) + RowSize(raw) > |archive|
  }

  /** Without such a file the check of the mount is the exact one. */
  lemma MountedRow(archive: seq<Byte>, i: nat, end: nat)
    requires HEADER + ENTRY * (i + 1) <= |archive| < WORD
    ensures var raw := archive[HEADER + ENTRY * i..HEADER + ENTRY * (i + 1)];
      Decode(raw[128..132]) == 2 && !Escapes(archive, i) ==>
        (PayloadAccepted(archive, raw) <==> RowOffset(raw) + RowSize(raw) <= |archive|)
    ensures Escapes(archive, i) ==> EntryAt(archive, i, end, false).None?
  {
    var raw := archive[HEADER + ENTRY * i..HEADER + ENTRY * (i + 1)];
    FieldsBounded(raw);
  }

  /** One row as the mount takes it; the bytes of an escaping payload are whatever lies there. */
  method MountRow(archive: seq<Byte>, i: nat, ghost end: nat) returns (e: Option<Entry>)
    requires HEADER + ENTRY * (i + 1) <= |archive| < WORD
    ensures if Escapes(archive, i) then e.Some? else e == EntryAt(archive, i, end, false)
  {
    var raw := archive[HEADER + ENTRY * i..HEADER + ENTRY * (i + 1)];
    MountedRow(archive, i, end);
    var path, mode := Text(raw[..PATH]), Decode(raw[132..136]);
    var kind, offset, size := Decode(raw[128..132]), RowOffset(raw), RowSize(raw);
    if kind == 1 {
      return Some(Entry(path, Directory, mode, []));
    } else if kind == 2 {
      if (offset + size) % WORD > |archive| {
        return None;
      }
      var data: seq<Byte> := *;
      if offset + size <= |archive| {
        data := archive[offset..offset + size];
      }
      return Some(Entry(path, File, mode, data));
    }
    return None;
  }

  /**
   The kernel's mount: it accepts exactly the archives whose payloads lie inside, and adds their
   entries in order, if and only if no row it comes to escapes the archive.
   */
  method Mount(archive: seq<Byte>) returns (ok: bool, entries: seq<Entry>, ghost escaped: bool)
    requires |archive| < WORD
    ensures !escaped ==> (ok <==> Parse(archive, false).Some?) && (ok ==> Parse(archive, false) == Some(entries))
    ensures escaped ==> Parse(archive, false).None?
    ensures HEADER + ENTRY * |entries| <= |archive| || entries == []
    ensures escaped <==> SomeEscapes(archive, |entries|)
  {
    entries, escaped := [], false;
    if |archive| < HEADER || archive[..8] != Magic() || Decode(archive[8..12]) != 1 {
      return false, [], false;
    }
    var n := Decode(archive[12..16]);
    var end := HEADER + ENTRY * n;
    if end > |archive| {
      return false, [], false;
    }
    var i := 0;
    while i < n
      invariant Mounted(archive, i, n, entries, escaped)
    {
      ok, entries, escaped := MountNext(archive, i, n, entries, escaped);
      if !ok {
        return;
      }
      i := i + 1;
    }
    ok := true;
  }

  ghost predicate SomeEscapes(archive: seq<Byte>, n: nat) {
    exists i: nat :: i < n && HEADER + ENTRY * (i + 1) <= |archive| && Escapes(archive, i)
  }

  /** The first `i` of `n` rows have been added. */
  ghost predicate Mounted(archive: seq<Byte>, i: nat, n: nat, entries: seq<Entry>, escaped: bool) {
    var end := HEADER + ENTRY * n;
    && i <= n && |entries| == i && HEADER + ENTRY * i <= end <= |archive| < WORD
    && (if escaped then ParseTable(archive, n, end, false).None?
      else ParseTable(archive, i, end, false) == Some(entries))
    && (escaped <==> SomeEscapes(archive, i))
  }

  method MountNext(archive: seq<Byte>, i: nat, n: nat, entries: seq<Entry>, ghost escaped: bool)
    returns (ok: bool, entries': seq<Entry>, ghost escaped': bool)
    requires i < n && Mounted(archive, i, n, entries, escaped)
    ensures ok ==> Mounted(archive, i + 1, n, entries', escaped')
    ensures !ok ==> entries' == entries && escaped' == escaped
    ensures !ok ==> ParseTable(archive, n, HEADER + ENTRY * n, false).None?
  {
    ghost var end := HEADER + ENTRY * n;
    RowInside(i, n);
    MountedRow(archive, i, end);
    var e := MountRow(archive, i, end);
    if EntryAt(archive, i, end, false).None? {
      RefusedStays(archive, i, n, end, false);
    }
    if e.None? {
      return false, entries, escaped;
    }
    EscapesMore(archive, i);
    ok, entries', escaped' := true, entries + [e.value], escaped || Escapes(archive, i);
  }

  lemma EscapesMore(archive: seq<Byte>, i: nat)
    requires HEADER + ENTRY * (i + 1) <= |archive|
    ensures SomeEscapes(archive, i + 1) <==> SomeEscapes(archive, i) || Escapes(archive, i)
  {
    if SomeEscapes(archive, i) {
      var j: nat :| j < i && HEADER + ENTRY * (j + 1) <= |archive| && Escapes(archive, j);
      assert j < i + 1;
    }
  }

  // ---------- Order ----------

  /** Everything before the last slash, or the whole path if it has none. */
  function Parent(path: Path): (p: Path)
    ensures |p| <= |path| && (SLASH in path ==> |p| < |path|) && p == path[..|p|]
    ensures path != [] && path[0] == SLASH && p != [] ==> p[0] == SLASH
  {
    if SLASH !in path then path else BeforeSlash(path)
  }

  function BeforeSlash(path: Path): (p: Path)
    requires SLASH in path
    ensures |p| < |path| && path[|p|] == SLASH && p == path[..|p|]
    ensures forall k :: |p| < k < |path| ==> path[k] != SLASH
  {
    if path[|path| - 1] == SLASH then path[..|path| - 1] else BeforeSlash(path[..|path| - 1])
  }

  ghost predicate Absolute(path: Path) {
    path != [] && path[0] == SLASH
  }

  /** Whether the archive must contain a directory for the path: the root always exists. */
  predicate NeedsParent(path: Path) {
    Parent(path) != [] && Parent(path) != [SLASH]
  }

  /** A path with all directories above it, short of the root. */
  ghost function Chain(path: Path): set<Path>
    decreases |path|
  {
    if path == [] || path == [SLASH] || SLASH !in path then {} else {path} + Chain(Parent(path))
  }

  /** The directories above a path. */
  ghost function Ancestors(path: Path): set<Path> {
    Chain(Parent(path))
  }

  lemma {:induction false} ChainShorter(path: Path, p: Path)
    requires p in Chain(path)
    ensures |p| <= |path|
    decreases |path|
  {
    if p != path {
      ChainShorter(Parent(path), p);
    }
  }

  /** `p` ends where some slash of `path` stands, other than the one of the root. */
  predicate EndsAtSlash(p: Path, path: Path) {
    0 < |p| < |path| && p == path[..|p|] && path[|p|] == SLASH && p != [SLASH]
  }

  /** The directories above an absolute path are the parts of it before its slashes. */
  lemma {:induction false} AncestorsEndAtSlashes(path: Path, p: Path)
    requires Absolute(path)
    ensures p in Ancestors(path) <==> EndsAtSlash(p, path)
    decreases |path|
  {
    var above := Parent(path);
    assert path[|above|] == SLASH && forall k :: |above| < k < |path| ==> path[k] != SLASH;
    if above != [] && above != [SLASH] {
      AncestorsEndAtSlashes(above, p);
      assert Chain(above) == {above} + Ancestors(above);
    }
  }

  lemma NotOwnAncestor(path: Path)
    ensures path !in Ancestors(path)
  {
    if SLASH in path && path in Ancestors(path) {
      ChainShorter(Parent(path), path);
    }
  }

  ghost function Paths(entries: seq<Entry>): set<Path> {
    if entries == [] then {} else Paths(entries[..|entries| - 1]) + {entries[|entries| - 1].path}
  }

  lemma {:induction false} PathOf(entries: seq<Entry>, i: nat)
    requires i < |entries|
    ensures entries[i].path in Paths(entries)
  {
    if i < |entries| - 1 {
      PathOf(entries[..|entries| - 1], i);
    }
  }

  lemma {:induction false} HasPath(entries: seq<Entry>, p: Path) returns (i: nat)
    requires p in Paths(entries)
    ensures i < |entries| && entries[i].path == p
  {
    i := |entries| - 1;
    if entries[i].path != p {
      i := HasPath(entries[..|entries| - 1], p);
    }
  }

  /** Every entry comes after its parent directory. */
  ghost predicate ParentsFirst(entries: seq<Entry>) {
    forall i: nat {:trigger ParentBefore(entries, i)} :: i < |entries| ==> ParentBefore(entries, i)
  }

  ghost predicate ParentBefore(entries: seq<Entry>, i: nat)
    requires i < |entries|
  {
    NeedsParent(entries[i].path) ==> Parent(entries[i].path) in Paths(entries[..i])
  }

  lemma ParentsFirstMore(entries: seq<Entry>, e: Entry)
    requires ParentsFirst(entries) && (NeedsParent(e.path) ==> Parent(e.path) in Paths(entries))
    ensures ParentsFirst(entries + [e])
  {
    var more := entries + [e];
    forall i: nat | i < |more|
      ensures ParentBefore(more, i)
    {
      if i < |entries| {
        assert ParentBefore(entries, i);
        assert more[..i] == entries[..i];
      } else {
        assert more[..i] == entries;
      }
    }
  }

  lemma PathsMore(entries: seq<Entry>, e: Entry)
    ensures Paths(entries + [e]) == Paths(entries) + {e.path}
  {
    assert (entries + [e])[..|entries|] == entries;
  }

  /** With a path, everything above it is there too. */
  ghost predicate Closed(paths: set<Path>) {
    forall p :: p in paths && NeedsParent(p) ==> Parent(p) in paths
  }

  lemma FirstIsClosed(entries: seq<Entry>)
    requires ParentsFirst(entries)
    ensures Closed(Paths(entries))
  {
    forall p | p in Paths(entries) && NeedsParent(p)
      ensures Parent(p) in Paths(entries)
    {
      var i := HasPath(entries, p);
      assert ParentBefore(entries, i);
      var k := HasPath(entries[..i], Parent(p));
      PathOf(entries, k);
    }
  }

  lemma {:induction false} ChainInside(paths: set<Path>, path: Path)
    requires Closed(paths) && path in paths
    ensures Chain(path) <= paths
    decreases |path|
  {
    if path != [] && path != [SLASH] && SLASH in path && NeedsParent(path) {
      ChainInside(paths, Parent(path));
    }
  }

  /** No path occurs twice. */
  ghost predicate Once(entries: seq<Entry>) {
    forall i, j :: 0 <= i < j < |entries| ==> entries[i].path != entries[j].path
  }

  lemma OnceMore(entries: seq<Entry>, e: Entry)
    ensures Once(entries + [e]) <==> Once(entries) && e.path !in Paths(entries)
  {
    var more := entries + [e];
    if e.path in Paths(entries) {
      var i := HasPath(entries, e.path);
      assert more[i].path == more[|entries|].path;
    }
    if Once(more) {
      OncePrefix(entries, e);
    } else {
      var i, j :| 0 <= i < j < |more| && more[i].path == more[j].path;
      PathOf(entries, i);
      assert j < |entries| ==> entries[i].path == entries[j].path;
    }
  }

  lemma OncePrefix(entries: seq<Entry>, e: Entry)
    requires Once(entries + [e])
    ensures Once(entries)
  {
    var more := entries + [e];
    forall i, j | 0 <= i < j < |entries|
      ensures entries[i].path != entries[j].path
    {
      assert more[i].path != more[j].path;
    }
  }

  function Implied(path: Path): Entry {
    Entry(path, Directory, 0x1ED, [])
  }

  /** The entry that belongs at a path: the one that was given, or else a plain directory. */
  function Right(given: map<Path, Entry>, path: Path): Entry {
    if path in given then given[path] else Implied(path)
  }

  /** An entry that was given, or an empty directory that everybody may read and search, and its owner change. */
  ghost predicate GivenOrMade(given: map<Path, Entry>, e: Entry) {
    if e.path in given then e == given[e.path]
    else e.kind == Directory && e.data == [] && e.mode == 7 * 64 + 5 * 8 + 5
  }

  ghost predicate AllRight(given: map<Path, Entry>, entries: seq<Entry>) {
    forall i :: 0 <= i < |entries| ==> entries[i] == Right(given, entries[i].path)
  }

  /** The paths that one entry brings into the archive; the root needs no directory. */
  ghost function Brought(e: Entry): set<Path> {
    Ancestors(e.path) + if e.kind == Directory && e.path == [SLASH] then {} else {e.path}
  }

  lemma BringsItself(e: Entry)
    requires e.path != [SLASH]
    ensures e.path in Brought(e)
  {
  }

  /** What each entry brings. */
  ghost predicate Bring(entries: seq<Entry>, sets: seq<set<Path>>) {
    && |sets| == |entries|
    && forall i: nat {:trigger BringsAt(entries, sets, i)} :: i < |entries| ==> BringsAt(entries, sets, i)
  }

  ghost predicate BringsAt(entries: seq<Entry>, sets: seq<set<Path>>, i: nat)
    requires i < |entries| == |sets|
  {
    sets[i] == Brought(entries[i])
  }

  ghost function Union(sets: seq<set<Path>>, n: nat): set<Path>
    requires n <= |sets|
  {
    if n == 0 then {} else Union(sets, n - 1) + sets[n - 1]
  }

  lemma {:induction false} InUnion(sets: seq<set<Path>>, n: nat, p: Path)
    requires n <= |sets|
    ensures p in Union(sets, n) <==> exists j :: 0 <= j < n && p in sets[j]
  {
    if n > 0 {
      InUnion(sets, n - 1, p);
    }
  }

  /** No file lies above an entry that comes before it. */
  ghost predicate NoFileAbove(entries: seq<Entry>, n: nat)
    requires n <= |entries|
  {
    forall i: nat {:trigger FileAbove(entries, i)} :: i < n ==> !FileAbove(entries, i)
  }

  /** A file that is a directory of an earlier entry. */
  ghost predicate FileAbove(entries: seq<Entry>, i: nat)
    requires i < |entries|
  {
    entries[i].kind == File && exists j :: 0 <= j < i && entries[i].path in Ancestors(entries[j].path)
  }

  /** A file is already in the archive exactly when it lies above an earlier entry. */
  lemma FileTaken(entries: seq<Entry>, sets: seq<set<Path>>, n: nat)
    requires n < |entries| && Once(entries) && entries[n].kind == File && Bring(entries, sets)
    ensures entries[n].path in Union(sets, n) + Ancestors(entries[n].path) <==> FileAbove(entries, n)
  {
    var p := entries[n].path;
    InUnion(sets, n, p);
    NotOwnAncestor(p);
    forall j | 0 <= j < n
      ensures p in sets[j] <==> p in Ancestors(entries[j].path)
    {
      assert BringsAt(entries, sets, j);
      assert entries[j].path != p;
    }
  }

  /**
   A directory `/a/b`, then a file `/a`: the file is emitted as a directory of the first entry,
   and again as itself.
   */
  lemma FileTwice(entries: seq<Entry>)
    requires entries == [Entry([SLASH, 97, SLASH, 98], Directory, 0x1ED, []), Entry([SLASH, 97], File, 0x1A4, [1])]
    ensures Once(entries) && FileAbove(entries, 1) && !NoFileAbove(entries, 2)
  {
    var path: Path := [SLASH, 97, SLASH, 98];
    assert path[..3] == [SLASH, 97, SLASH] && path[..3][..2] == [SLASH, 97];
    assert BeforeSlash(path[..3]) == [SLASH, 97];
    assert Parent(path) == [SLASH, 97];
    assert entries[1].path in Ancestors(entries[0].path);
    FoundAbove(entries, 2, 1);
  }

  lemma FoundAbove(entries: seq<Entry>, n: nat, i: nat)
    requires i < n <= |entries| && FileAbove(entries, i)
    ensures !NoFileAbove(entries, n)
  {
  }

  lemma EmitKeeps(given: map<Path, Entry>, entries: seq<Entry>, e: Entry, more: seq<Entry>)
    requires ParentsFirst(entries) && AllRight(given, entries) && e == Right(given, e.path) && more == entries + [e]
    requires NeedsParent(e.path) ==> Parent(e.path) in Paths(entries)
    ensures ParentsFirst(more) && AllRight(given, more) && Paths(more) == Paths(entries) + {e.path}
    ensures Once(more) <==> Once(entries) && e.path !in Paths(entries)
  {
    ParentsFirstMore(entries, e);
    PathsMore(entries, e);
    OnceMore(entries, e);
  }

  class Orderer {
    var byPath: map<Path, Entry>
    var ordered: seq<Entry>
    var emitted: set<Path>
    ghost const given: map<Path, Entry>

    /** Starts with the entries to put in order, by path. */
    constructor (entries: map<Path, Entry>)
      requires forall p :: p in entries ==> entries[p].path == p
      ensures Valid() && byPath == entries && ordered == [] && emitted == {} && given == entries
    {
      byPath, ordered, emitted, given := entries, [], {}, entries;
    }

    /** What has been emitted is what is in the list, parents first, and each path has the entry that belongs there. */
    ghost predicate Valid()
      reads this
    {
      && ParentsFirst(ordered) && emitted == Paths(ordered) && AllRight(given, ordered)
      && given.Keys <= byPath.Keys && forall p :: p in byPath ==> byPath[p] == Right(given, p) && byPath[p].path == p
    }

    method Emit(e: Entry)
      requires Valid() && e == Right(given, e.path) && (NeedsParent(e.path) ==> Parent(e.path) in emitted)
      modifies this`ordered, this`emitted
      ensures Valid() && ordered == old(ordered) + [e] && emitted == old(emitted) + {e.path}
      ensures Once(ordered) <==> Once(old(ordered)) && e.path !in old(emitted)
    {
      EmitKeeps(given, ordered, e, ordered + [e]);
      ordered := ordered + [e];
      emitted := emitted + {e.path};
    }

    /** `ensure_directory`: terminates because the path has a slash in front. */
    method EnsureDirectory(path: Path)
      requires Valid() && (path == [] || Absolute(path))
      modifies this
      ensures Valid() && old(ordered) <= ordered && emitted == old(emitted) + Chain(path)
      ensures Once(ordered) <==> Once(old(ordered))
      decreases |path|
    {
      if path == [] || path == [SLASH] {
        return;
      }
      if path in emitted {
        FirstIsClosed(ordered);
        ChainInside(emitted, path);
        return;
      }
      var parent := Parent(path);
      if parent != [] {
        EnsureDirectory(parent);
      }
      if path !in emitted {
        EmitAt(path);
      } else {
        ChainShorter(parent, path);
        assert false;
      }
    }

    /** The entry that belongs at a path, made up if there is none. */
    method EmitAt(path: Path)
      requires Valid() && (NeedsParent(path) ==> Parent(path) in emitted)
      modifies this
      ensures Valid() && ordered == old(ordered) + [Right(given, path)] && emitted == old(emitted) + {path}
      ensures Once(ordered) <==> Once(old(ordered)) && path !in old(emitted)
    {
      var e := if path in byPath then byPath[path] else Implied(path);
      byPath := byPath[path := e];
      Emit(e);
    }

    /** One entry of the archive, behind its ancestors. */
    method Add(e: Entry)
      requires Valid() && e == Right(given, e.path) && Absolute(e.path)
      modifies this
      ensures Valid() && emitted == old(emitted) + Brought(e)
      ensures Once(ordered) <==> Once(old(ordered)) && (e.kind == File ==> e.path !in old(emitted) + Ancestors(e.path))
    {
      var parent := Parent(e.path);
      if parent != [] {
        EnsureDirectory(parent);
      }
      if e.kind == Directory {
        EnsureDirectory(e.path);
      } else {
        Emit(e);
      }
    }

    /**
     All entries: each is in the list, behind its ancestors, and nothing else is in it but the
     missing directories. Each occurs once if and only if no file lies above an earlier entry.
     */
    method AddAll(entries: seq<Entry>, ghost sets: seq<set<Path>>)
      requires Valid() && ordered == [] && Once(entries) && Bring(entries, sets)
      requires forall i :: 0 <= i < |entries| ==>
        Absolute(entries[i].path) && entries[i].path in given && given[entries[i].path] == entries[i]
      modifies this
      ensures ParentsFirst(ordered) && AllRight(given, ordered)
      ensures Paths(ordered) == Union(sets, |entries|)
      ensures forall i :: 0 <= i < |entries| && entries[i].path != [SLASH] ==> entries[i] in ordered
      ensures Once(ordered) <==> NoFileAbove(entries, |entries|)
      ensures forall i :: 0 <= i < |ordered| ==> GivenOrMade(given, ordered[i])
    {
      assert forall i: nat :: i < |entries| ==> Addable(given, entries, i);
      AddEach(entries, sets);
      AllAreThere(given, entries, sets, ordered);
    }

    /** The first `n` entries are in the list. */
    ghost predicate Placed(entries: seq<Entry>, sets: seq<set<Path>>, n: nat)
      requires n <= |entries| == |sets|
      reads this
    {
      Valid() && emitted == Union(sets, n) && (Once(ordered) <==> NoFileAbove(entries, n))
    }

    method AddEach(entries: seq<Entry>, ghost sets: seq<set<Path>>)
      requires Valid() && ordered == [] && Once(entries) && Bring(entries, sets)
      requires forall i: nat {:trigger Addable(given, entries, i)} :: i < |entries| ==> Addable(given, entries, i)
      modifies this
      ensures Placed(entries, sets, |entries|)
    {
      var i := 0;
      while i < |entries|
        invariant i <= |entries| && Placed(entries, sets, i)
      {
        AddNext(entries, sets, i);
        i := i + 1;
      }
    }

    method AddNext(entries: seq<Entry>, ghost sets: seq<set<Path>>, i: nat)
      requires i < |entries| && Once(entries) && Bring(entries, sets) && Addable(given, entries, i)
      requires Placed(entries, sets, i)
      modifies this
      ensures Placed(entries, sets, i + 1)
    {
      if entries[i].kind == File {
        FileTaken(entries, sets, i);
      }
      NoFileAboveMore(entries, i);
      assert BringsAt(entries, sets, i);
      Add(entries[i]);
    }
  }

  ghost predicate Addable(given: map<Path, Entry>, entries: seq<Entry>, i: nat)
    requires i < |entries|
  {
    Absolute(entries[i].path) && entries[i] == Right(given, entries[i].path)
  }

  lemma NoFileAboveMore(entries: seq<Entry>, n: nat)
    requires n < |entries|
    ensures NoFileAbove(entries, n + 1) <==> NoFileAbove(entries, n) && !FileAbove(entries, n)
  {
    if NoFileAbove(entries, n) && !FileAbove(entries, n) {
      assert forall i: nat :: i < n + 1 ==> !FileAbove(entries, i);
    }
  }

  lemma AllAreThere(given: map<Path, Entry>, entries: seq<Entry>, sets: seq<set<Path>>, ordered: seq<Entry>)
    requires AllRight(given, ordered) && Bring(entries, sets) && Paths(ordered) == Union(sets, |entries|)
    requires forall i :: 0 <= i < |entries| ==> entries[i].path in given && given[entries[i].path] == entries[i]
    ensures forall i :: 0 <= i < |entries| && entries[i].path != [SLASH] ==> entries[i] in ordered
  {
    forall i | 0 <= i < |entries| && entries[i].path != [SLASH]
      ensures entries[i] in ordered
    {
      BringsItself(entries[i]);
      assert BringsAt(entries, sets, i);
      InUnion(sets, |entries|, entries[i].path);
      RightIsGiven(given, ordered, entries[i]);
    }
  }

  lemma RightIsGiven(given: map<Path, Entry>, ordered: seq<Entry>, e: Entry)
    requires AllRight(given, ordered) && e.path in Paths(ordered) && e.path in given && given[e.path] == e
    ensures e in ordered
  {
    var i := HasPath(ordered, e.path);
    assert ordered[i] == Right(given, e.path);
  }

  /** Every parent in the list is a directory if and only if no file was given for one. */
  lemma ParentsAreDirectories(given: map<Path, Entry>, ordered: seq<Entry>)
    requires AllRight(given, ordered) && ParentsFirst(ordered)
    ensures (forall d, e :: d in ordered && e in ordered && NeedsParent(e.path) && d.path == Parent(e.path) ==>
      d.kind == Directory)
      <==> (forall e :: e in ordered && NeedsParent(e.path) && Parent(e.path) in given ==>
        given[Parent(e.path)].kind == Directory)
  {
    forall d | d in ordered
      ensures d == Right(given, d.path)
    {
      var i :| 0 <= i < |ordered| && ordered[i] == d;
    }
    FirstIsClosed(ordered);
    forall e | e in ordered && NeedsParent(e.path)
      ensures Right(given, Parent(e.path)) in ordered && Right(given, Parent(e.path)).path == Parent(e.path)
    {
      var i :| 0 <= i < |ordered| && ordered[i] == e;
      PathOf(ordered, i);
      var k := HasPath(ordered, Parent(e.path));
      assert ordered[k] in ordered;
    }
  }

  lemma BothGiven(a: Entry, b: Entry)
    requires Absolute(a.path) && Absolute(b.path) && a.path != b.path
    ensures Bring([a, b], [Brought(a), Brought(b)])
    ensures var given := map[a.path := a, b.path := b];
      && (forall p :: p in given ==> given[p].path == p)
      && forall i :: 0 <= i < 2 ==>
        Absolute([a, b][i].path) && [a, b][i].path in given && given[[a, b][i].path] == [a, b][i]
  {
    assert BringsAt([a, b], [Brought(a), Brought(b)], 0) && BringsAt([a, b], [Brought(a), Brought(b)], 1);
  }

  /** The two entries of `FileTwice` in the order of the archive: some path is there twice. */
  method PackedTwice() returns (ordered: seq<Entry>)
    ensures !Once(ordered)
  {
    var a := Entry([SLASH, 97, SLASH, 98], Directory, 0x1ED, []);
    var b := Entry([SLASH, 97], File, 0x1A4, [1]);
    var entries, given := [a, b], map[a.path := a, b.path := b];
    FileTwice(entries);
    BothGiven(a, b);
    var o := new Orderer(given);
    o.AddAll(entries, [Brought(a), Brought(b)]);
    ordered := o.ordered;
  }

  // ---------- Relative paths ----------

  /** Where the recursion of `ensure_directory` ends up on a path: above its last slash. */
  ghost function Uppermost(path: Path): Path
    decreases |path|
  {
    if SLASH !in path then path else Uppermost(Parent(path))
  }

  /**
   The recursion asks for the parent of the same path for ever if and only if the path does not
   start with a slash: on an absolute path it ends at the empty one.
   */
  lemma {:induction false} RelativeNeverEnds(path: Path)
    ensures Parent(Uppermost(path)) == Uppermost(path)
    ensures Uppermost(path) == [] <==> path == [] || path[0] == SLASH
    decreases |path|
  {
    if SLASH in path {
      RelativeNeverEnds(Parent(path));
      ParentHead(path);
    }
  }

  lemma ParentHead(path: Path)
    requires SLASH in path
    ensures Parent(path) == [] || path[0] == SLASH <==> Parent(path) == [] || Parent(path)[0] == SLASH
    ensures Parent(path) == [] ==> path[0] == SLASH
  {
  }

  // ---------- Writing ----------

  lemma {:induction false} ConcatMore(chunks: seq<seq<Byte>>, x: seq<Byte>, size: nat)
    requires Even(chunks, size) && |x| == size
    ensures Even(chunks + [x], size) && Concat(chunks + [x], size) == Concat(chunks, size) + x
  {
    if chunks == [] {
      assert [x][1..] == [];
      assert Concat([x], size) == x + Concat([], size);
    } else {
      assert (chunks + [x])[1..] == chunks[1..] + [x];
      ConcatMore(chunks[1..], x, size);
      assert chunks[0] + (Concat(chunks[1..], size) + x) == chunks[0] + Concat(chunks[1..], size) + x;
    }
  }

  lemma BeforeMore(entries: seq<Entry>, e: Entry, i: nat)
    requires i <= |entries|
    ensures Before(entries + [e], i) == if i < |entries| then Before(entries, i) else |Payload(entries)|
  {
    assert (entries + [e])[..i] == entries[..i];
    assert i == |entries| ==> entries[..i] == entries;
  }

  lemma ChunkIs(entries: seq<Entry>, offset: nat, i: nat, e: Entry, at: nat)
    requires Short(entries) && i < |entries| && entries[i] == e && at == offset + Before(entries, i)
    ensures Chunks(entries, offset)[i] == PackEntry(e, at)
  {
  }

  lemma Extends<T>(a: seq<T>, b: seq<T>, x: T)
    requires |b| == |a| + 1 && (forall i :: 0 <= i < |a| ==> b[i] == a[i]) && b[|a|] == x
    ensures b == a + [x]
  {
  }

  lemma ChunksMore(entries: seq<Entry>, e: Entry, offset: nat)
    requires Short(entries) && |e.path| < PATH
    ensures Short(entries + [e])
    ensures Chunks(entries + [e], offset) == Chunks(entries, offset) + [PackEntry(e, offset + |Payload(entries)|)]
  {
    var a, b := Chunks(entries, offset), Chunks(entries + [e], offset);
    forall i | 0 <= i < |a|
      ensures b[i] == a[i]
    {
      BeforeMore(entries, e, i);
      ChunkIs(entries, offset, i, entries[i], offset + Before(entries, i));
      ChunkIs(entries + [e], offset, i, entries[i], offset + Before(entries, i));
    }
    BeforeMore(entries, e, |entries|);
    ChunkIs(entries + [e], offset, |entries|, e, offset + |Payload(entries)|);
    Extends(a, b, PackEntry(e, offset + |Payload(entries)|));
  }

  lemma TableMore(entries: seq<Entry>, e: Entry, offset: nat)
    requires Short(entries) && |e.path| < PATH
    ensures Short(entries + [e])
    ensures PackTable(entries + [e], offset) == PackTable(entries, offset) + PackEntry(e, offset + |Payload(entries)|)
  {
    ChunksMore(entries, e, offset);
    ConcatMore(Chunks(entries, offset), PackEntry(e, offset + |Payload(entries)|), ENTRY);
  }

  lemma PayloadMore(entries: seq<Entry>, e: Entry)
    ensures Payload(entries + [e]) == Payload(entries) + e.data
  {
    PayloadSplit(entries, [e]);
    assert [e][1..] == [];
    assert Payload([e]) == e.data + [];
  }

  lemma WrittenMore(entries: seq<Entry>, i: nat, start: nat)
    requires i < |entries| && Short(entries[..i]) && |entries[i].path| < PATH
    ensures Short(entries[..i + 1])
    ensures PackTable(entries[..i + 1], start) ==
      PackTable(entries[..i], start) + PackEntry(entries[i], start + |Payload(entries[..i])|)
    ensures Payload(entries[..i + 1]) == Payload(entries[..i]) + entries[i].data
  {
    assert entries[..i + 1] == entries[..i] + [entries[i]];
    TableMore(entries[..i], entries[i], start);
    PayloadMore(entries[..i], entries[i]);
  }

  ghost predicate AllWritable(entries: seq<Entry>, n: nat)
    requires n <= |entries|
  {
    forall i :: 0 <= i < n ==> Writable(entries[i])
  }

  /** The table and the payload of the first `i` entries, which are all right. */
  ghost predicate Packing(entries: seq<Entry>, i: nat, start: nat, table: seq<Byte>, payload: seq<Byte>) {
    && i <= |entries| && AllWritable(entries, i) && Short(entries[..i])
    && table == PackTable(entries[..i], start) && payload == Payload(entries[..i])
  }

  lemma WritableMore(entries: seq<Entry>, n: nat)
    requires n < |entries| && AllWritable(entries, n) && Writable(entries[n])
    ensures AllWritable(entries, n + 1)
  {
  }

  lemma PackingMore(entries: seq<Entry>, i: nat, start: nat, table: seq<Byte>, payload: seq<Byte>)
    requires i < |entries| && Packing(entries, i, start, table, payload) && Writable(entries[i])
    ensures Packing(entries, i + 1, start, table + PackEntry(entries[i], start + |payload|), payload + entries[i].data)
  {
    WritableMore(entries, i);
    WrittenMore(entries, i, start);
  }

  method WriteNext(entries: seq<Entry>, i: nat, start: nat, table: seq<Byte>, payload: seq<Byte>)
    returns (table': seq<Byte>, payload': seq<Byte>)
    requires i < |entries| && Packing(entries, i, start, table, payload) && Writable(entries[i])
    ensures Packing(entries, i + 1, start, table', payload')
  {
    PackingMore(entries, i, start, table, payload);
    table' := table + PackEntry(entries[i], start + |payload|);
    payload' := payload + entries[i].data;
  }

  lemma AllPackedUp(entries: seq<Entry>, start: nat, table: seq<Byte>, payload: seq<Byte>)
    requires Packing(entries, |entries|, start, table, payload) && start == HEADER + ENTRY * |entries|
    ensures Short(entries) && Join(Header(|entries|, start + |payload|), table, payload) == Pack(entries)
  {
    assert entries[..|entries|] == entries;
  }

  /**
   The writer: it gives up on a path that is too long or cannot be encoded, and on a number that
   does not fit its field; otherwise it produces a packed archive.
   */
  method WriteArchive(entries: seq<Entry>) returns (archive: Option<seq<Byte>>)
    ensures archive.Some? <==> Writes(entries)
    ensures archive.Some? ==> Short(entries) && archive == Some(Pack(entries))
    ensures archive.Some? <==>
      && |entries| < 0x1_0000_0000 && 24 + 152 * |entries| + |Payload(entries)| < 0x1_0000_0000_0000_0000
      && forall e :: e in entries ==> |e.path| <= 127 && IsText(e.path) && e.mode < 0x1_0000_0000
  {
    var start := HEADER + ENTRY * |entries|;
    if |entries| >= 0x1_0000_0000 || start + |Payload(entries)| >= 0x1_0000_0000_0000_0000 {
      return None;
    }
    var table: seq<Byte>, payload: seq<Byte> := [], [];
    var i := 0;
    while i < |entries|
      invariant Packing(entries, i, start, table, payload)
    {
      if !Writable(entries[i]) {
        assert entries[i] in entries;
        return None;
      }
      table, payload := WriteNext(entries, i, start, table, payload);
      i := i + 1;
    }
    AllPackedUp(entries, start, table, payload);
    archive := Some(Join(Header(|entries|, start + |payload|), table, payload));
  }
}

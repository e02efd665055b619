/**
 The boot archive: the writer and reader of tools/mkinitramfs.py and the mount in
 xscore/kernel/initramfs.c. Paths are byte strings.
 */
module Initramfs {
  import opened Bytes
  import opened Utf8

  const HEADER: nat := 24
  const ENTRY: nat := 152
  const PATH: nat := 128
  const SLASH: Byte := 47

  type Path = seq<Byte>

  datatype Kind = Directory | File

  datatype Entry = Entry(path: Path, kind: Kind, mode: nat, data: seq<Byte>)

  function Magic(): (m: seq<Byte>)
    ensures |m| == 8
  {
    [65, 75, 65, 79, 83, 82, 65, 77]
  }

  function Code(k: Kind): nat {
    match k case Directory => 1 case File => 2
  }

  // ---------- Writing ----------

  /** A path fits its field, and the numbers fit theirs. */
  ghost predicate Fits(e: Entry) {
    && |e.path| < PATH && 0 !in e.path && IsText(e.path) && e.mode < 0x1_0000_0000 && |e.data| < 0x1_0000_0000_0000_0000
    && (e.kind == Directory ==> e.data == [])
  }

  ghost predicate AllFit(entries: seq<Entry>) {
    Short(entries) && forall i :: 0 <= i < |entries| ==> Fits(entries[i])
  }

  /** The writer gives up on longer paths. */
  predicate Short(entries: seq<Entry>) {
    forall i :: 0 <= i < |entries| ==> |entries[i].path| < PATH
  }

  /** The numbers of an entry fit their fields, and its path is the encoding of a string. */
  predicate Writable(e: Entry) {
    |e.path| < PATH && IsText(e.path) && e.mode < 0x1_0000_0000
  }

  /** What the writer does not give up on. */
  predicate Writes(entries: seq<Entry>) {
    && |entries| < 0x1_0000_0000 && (forall i :: 0 <= i < |entries| ==> Writable(entries[i]))
    && HEADER + ENTRY * |entries| + |Payload(entries)| < 0x1_0000_0000_0000_0000
  }

  ghost predicate Packable(entries: seq<Entry>) {
    && |entries| < 0x1_0000_0000 && AllFit(entries)
    && HEADER + ENTRY * |entries| + |Payload(entries)| < 0x1_0000_0000_0000_0000
  }

  function Payload(entries: seq<Entry>): seq<Byte> {
    if entries == [] then [] else entries[0].data + Payload(entries[1..])
  }

  function Pad(path: Path): (p: seq<Byte>)
    requires |path| < PATH
    ensures |p| == PATH
  {
    path + Zeros(PATH - |path|)
  }

  function PackEntry(e: Entry, offset: nat): (r: seq<Byte>)
    requires |e.path| < PATH
    ensures |r| == ENTRY
  {
    Pad(e.path) + Encode(Code(e.kind), 4) + Encode(e.mode, 4) + Encode(|e.data|, 8)
      + Encode(if e.kind == File then offset else 0, 8)
  }

  /** The payload before entry `i`. */
  function Before(entries: seq<Entry>, i: nat): nat
    requires i <= |entries|
  {
    |Payload(entries[..i])|
  }

  /** Packed entries, given where their payload starts. */
  function Chunks(entries: seq<Entry>, offset: nat): (r: seq<seq<Byte>>)
    requires Short(entries)
    ensures |r| == |entries| && Even(r, ENTRY)
  {
    seq(|entries|, i requires 0 <= i < |entries| => PackEntry(entries[i], offset + Before(entries, i)))
  }

  /** All chunks have the same size. */
  predicate Even(chunks: seq<seq<Byte>>, size: nat) {
    forall i :: 0 <= i < |chunks| ==> |chunks[i]| == size
  }

  function Concat(chunks: seq<seq<Byte>>, size: nat): (r: seq<Byte>)
    requires Even(chunks, size)
    ensures |r| == size * |chunks|
  {
    if chunks == [] then [] else chunks[0] + Concat(chunks[1..], size)
  }

  lemma {:induction false} ConcatAt(chunks: seq<seq<Byte>>, size: nat, i: nat)
    requires Even(chunks, size) && i < |chunks|
    ensures size * (i + 1) <= |Concat(chunks, size)| && Concat(chunks, size)[size * i..size * (i + 1)] == chunks[i]
    decreases i
  {
    var rest := Concat(chunks[1..], size);
    if i > 0 {
      ConcatAt(chunks[1..], size, i - 1);
      assert size * (i - 1) + size == size * i && size * i + size == size * (i + 1);
      Shifted(chunks[0], rest, size * (i - 1), size * i);
    }
  }

  lemma Shifted(a: seq<Byte>, b: seq<Byte>, i: nat, j: nat)
    requires i <= j <= |b|
    ensures (a + b)[|a| + i..|a| + j] == b[i..j]
  {
  }

  function PackTable(entries: seq<Entry>, offset: nat): (r: seq<Byte>)
    requires Short(entries)
    ensures |r| == ENTRY * |entries|
  {
    Concat(Chunks(entries, offset), ENTRY)
  }

  function Pack(entries: seq<Entry>): (r: seq<Byte>)
    requires Short(entries)
    ensures |r| == HEADER + ENTRY * |entries| + |Payload(entries)|
  {
    var start := HEADER + ENTRY * |entries|;
    Join(Header(|entries|, start + |Payload(entries)|), PackTable(entries, start), Payload(entries))
  }

  function Join(header: seq<Byte>, table: seq<Byte>, payload: seq<Byte>): (r: seq<Byte>)
    ensures |r| == |header| + |table| + |payload|
  {
    header + table + payload
  }

  function Header(count: nat, total: nat): (h: seq<Byte>)
    ensures |h| == HEADER
  {
    Magic() + Encode(1, 4) + Encode(count, 4) + Encode(total, 8)
  }

  // ---------- Reading ----------

  /** The bytes before the first zero. */
  function Text(field: seq<Byte>): (p: Path)
    ensures |p| <= |field| && 0 !in p && p == field[..|p|]
    ensures |p| < |field| ==> field[|p|] == 0
  {
    if field == [] || field[0] == 0 then [] else [field[0]] + Text(field[1..])
  }

  /** One entry as a reader sees it; None when it is refused. */
  function ParseEntry(archive: seq<Byte>, raw: seq<Byte>, tableEnd: nat, strict: bool): (r: Option<Entry>)
    requires |raw| == ENTRY
  {
    var path := Text(raw[..PATH]);
    var kind, mode := Decode(raw[128..132]), Decode(raw[132..136]);
    var size, offset := Decode(raw[136..144]), Decode(raw[144..152]);
    if strict && !IsText(path) then None
    else if kind == 1 then
      if strict && size != 0 then None else Some(Entry(path, Directory, mode, []))
    else if kind == 2 then
      if (strict && offset < tableEnd) || offset + size > |archive| then None
      else Some(Entry(path, File, mode, archive[offset..offset + size]))
    else None
  }

  /** Entry `i` of the table. */
  function EntryAt(archive: seq<Byte>, i: nat, tableEnd: nat, strict: bool): Option<Entry>
    requires HEADER + ENTRY * (i + 1) <= |archive|
  {
    ParseEntry(archive, archive[HEADER + ENTRY * i..HEADER + ENTRY * (i + 1)], tableEnd, strict)
  }

  /** All entries, in order; one that is refused stops the reader. */
  function ParseTable(archive: seq<Byte>, n: nat, tableEnd: nat, strict: bool): (r: Option<seq<Entry>>)
    requires HEADER + ENTRY * n <= |archive|
  {
    if n == 0 then Some([])
    else
      var front := ParseTable(archive, n - 1, tableEnd, strict);
      var e := EntryAt(archive, n - 1, tableEnd, strict);
      if front.None? || e.None? then None else Some(front.value + [e.value])
  }

  /**
   The tool's `read_archive` is strict: it checks the total size, that paths are UTF-8, that
   directories are empty and that payloads lie behind the table. The kernel's mount does not, and wants payloads to
   lie inside the archive.
   */
  function Parse(archive: seq<Byte>, strict: bool): (r: Option<seq<Entry>>) {
    if |archive| < HEADER || archive[..8] != Magic() || Decode(archive[8..12]) != 1 then None
    else
      var n := Decode(archive[12..16]);
      var end := HEADER + ENTRY * n;
      if end > |archive| || (strict && Decode(archive[16..24]) != |archive|) then None
      else ParseTable(archive, n, end, strict)
  }

  // ---------- The bound check of the mount ----------

  const WORD: nat := 0x1_0000_0000_0000_0000

  function RowOffset(raw: seq<Byte>): nat
    requires |raw| == ENTRY
  {
    Decode(raw[144..152])
  }

  function RowSize(raw: seq<Byte>): nat
    requires |raw| == ENTRY
  {
    Decode(raw[136..144])
  }

  /** The mount adds offset and size in 64 bits. */
  predicate PayloadAccepted(archive: seq<Byte>, raw: seq<Byte>)
    requires |raw| == ENTRY
  {
    (RowOffset(raw) + RowSize(raw)) % WORD <= |archive|
  }

  lemma FieldsBounded(raw: seq<Byte>)
    requires |raw| == ENTRY
    ensures RowOffset(raw) < WORD && RowSize(raw) < WORD
  {
    Moduli();
    DecodeBounded(raw[144..152]);
    DecodeBounded(raw[136..144]);
  }

  /** A payload that the mount accepts lies inside the archive if and only if the sum does not wrap around. */
  lemma AcceptedInside(archive: seq<Byte>, raw: seq<Byte>)
    requires |raw| == ENTRY && |archive| < WORD && PayloadAccepted(archive, raw)
    ensures RowOffset(raw) + RowSize(raw) <= |archive| <==> RowOffset(raw) + RowSize(raw) < WORD
  {
  }

  /** An offset of 2^64 - 1 and a size of 2 are accepted by every archive, and lie outside of every one. */
  lemma WrapAccepted(archive: seq<Byte>, raw: seq<Byte>)
    requires |raw| == ENTRY && 1 <= |archive| < WORD && raw[136..152] == Encode(2, 8) + Encode(WORD - 1, 8)
    ensures PayloadAccepted(archive, raw) && RowOffset(raw) == WORD - 1 && RowOffset(raw) + RowSize(raw) > |archive|
  {
    Moduli();
    DecodeEncode(2, 8);
    DecodeEncode(WORD - 1, 8);
    assert raw[136..144] == raw[136..152][..8] == Encode(2, 8);
    assert raw[144..152] == raw[136..152][8..] == Encode(WORD - 1, 8);
  }

  // ---------- Round trip ----------

  lemma Moduli()
    ensures Modulus(4) == 0x1_0000_0000 && Modulus(8) == 0x1_0000_0000_0000_0000
  {
    assert Modulus(2) == 0x1_0000;
    assert Modulus(6) == 0x1_0000_0000_0000;
  }

  lemma {:induction false} TextZeros(path: Path, n: nat)
    requires 0 !in path && n > 0
    ensures Text(path + Zeros(n)) == path
  {
    if path != [] {
      assert (path + Zeros(n))[1..] == path[1..] + Zeros(n);
      TextZeros(path[1..], n);
    }
  }

  lemma PackedFields(e: Entry, offset: nat)
    requires |e.path| < PATH
    ensures var raw := PackEntry(e, offset);
      raw[..PATH] == Pad(e.path) && raw[128..132] == Encode(Code(e.kind), 4) && raw[132..136] == Encode(e.mode, 4)
      && raw[136..144] == Encode(|e.data|, 8) && raw[144..152] == Encode(if e.kind == File then offset else 0, 8)
  {
  }

  /** The fields of a raw entry are those of `e`, with its payload at `offset`. */
  ghost predicate Describes(raw: seq<Byte>, e: Entry, offset: nat) {
    && |raw| == ENTRY && Text(raw[..PATH]) == e.path && Decode(raw[128..132]) == Code(e.kind)
    && Decode(raw[132..136]) == e.mode
    && Decode(raw[136..144]) == |e.data| && (e.kind == File ==> Decode(raw[144..152]) == offset)
  }

  lemma PackDescribes(e: Entry, offset: nat)
    requires Fits(e) && offset < 0x1_0000_0000_0000_0000
    ensures Describes(PackEntry(e, offset), e, offset)
  {
    Moduli();
    PackedFields(e, offset);
    TextZeros(e.path, PATH - |e.path|);
    DecodeEncode(Code(e.kind), 4);
    DecodeEncode(e.mode, 4);
    DecodeEncode(|e.data|, 8);
    DecodeEncode(if e.kind == File then offset else 0, 8);
  }

  lemma EntryParses(archive: seq<Byte>, raw: seq<Byte>, e: Entry, offset: nat, tableEnd: nat, strict: bool)
    requires Describes(raw, e, offset) && tableEnd <= offset && offset + |e.data| <= |archive|
    requires (e.kind == Directory ==> e.data == []) && (strict ==> IsText(e.path))
    requires archive[offset..offset + |e.data|] == e.data
    ensures ParseEntry(archive, raw, tableEnd, strict) == Some(e)
  {
  }

  lemma {:induction false} PayloadSplit(a: seq<Entry>, b: seq<Entry>)
    ensures Payload(a + b) == Payload(a) + Payload(b)
  {
    if a == [] {
      assert a + b == b;
    } else {
      assert (a + b)[1..] == a[1..] + b;
      PayloadSplit(a[1..], b);
    }
  }

  lemma DataAt(entries: seq<Entry>, i: nat)
    requires i < |entries|
    ensures Before(entries, i) + |entries[i].data| <= |Payload(entries)|
    ensures Payload(entries)[Before(entries, i)..Before(entries, i) + |entries[i].data|] == entries[i].data
  {
    var a, e, b := entries[..i], entries[i], entries[i + 1..];
    assert entries == a + ([e] + b);
    PayloadSplit(a, [e] + b);
    assert ([e] + b)[1..] == b;
    assert Payload(entries) == Payload(a) + (e.data + Payload(b));
  }

  lemma ChunkDescribes(entries: seq<Entry>, offset: nat, i: nat)
    requires AllFit(entries) && i < |entries| && offset + |Payload(entries)| < 0x1_0000_0000_0000_0000
    ensures Describes(Chunks(entries, offset)[i], entries[i], offset + Before(entries, i))
  {
    DataAt(entries, i);
    PackDescribes(entries[i], offset + Before(entries, i));
  }

  lemma MiddlePart(h: seq<Byte>, t: seq<Byte>, p: seq<Byte>, i: nat, j: nat)
    requires i <= j <= |t|
    ensures Join(h, t, p)[|h| + i..|h| + j] == t[i..j]
  {
  }

  lemma LastPart(h: seq<Byte>, t: seq<Byte>, p: seq<Byte>, i: nat, j: nat)
    requires i <= j <= |p|
    ensures Join(h, t, p)[|h| + |t| + i..|h| + |t| + j] == p[i..j]
  {
  }

  /** An archive with the table and the payload of the entries behind some header. */
  ghost predicate Holds(a: seq<Byte>, h: seq<Byte>, entries: seq<Entry>) {
    && Short(entries) && |h| == HEADER
    && a == Join(h, PackTable(entries, HEADER + ENTRY * |entries|), Payload(entries))
  }

  lemma PackedChunk(a: seq<Byte>, h: seq<Byte>, entries: seq<Entry>, i: nat)
    requires Holds(a, h, entries) && i < |entries|
    ensures a[HEADER + ENTRY * i..HEADER + ENTRY * (i + 1)] == Chunks(entries, HEADER + ENTRY * |entries|)[i]
  {
    ChunkInside(a, h, Chunks(entries, HEADER + ENTRY * |entries|), Payload(entries), i);
  }

  lemma InJoin(a: seq<Byte>, h: seq<Byte>, t: seq<Byte>, p: seq<Byte>, from: nat, to: nat, part: seq<Byte>)
    requires a == Join(h, t, p) && from <= to <= |t| && t[from..to] == part
    ensures |h| + to <= |a| && a[|h| + from..|h| + to] == part
  {
    MiddlePart(h, t, p, from, to);
  }

  lemma ChunkInside(a: seq<Byte>, h: seq<Byte>, chunks: seq<seq<Byte>>, p: seq<Byte>, i: nat)
    requires Even(chunks, ENTRY) && i < |chunks| && |h| == HEADER && a == Join(h, Concat(chunks, ENTRY), p)
    ensures HEADER + ENTRY * (i + 1) <= |a| && a[HEADER + ENTRY * i..HEADER + ENTRY * (i + 1)] == chunks[i]
  {
    ConcatAt(chunks, ENTRY, i);
    InJoin(a, h, Concat(chunks, ENTRY), p, ENTRY * i, ENTRY * (i + 1), chunks[i]);
  }

  lemma PackedData(a: seq<Byte>, h: seq<Byte>, entries: seq<Entry>, i: nat)
    requires Holds(a, h, entries) && i < |entries|
    ensures HEADER + ENTRY * |entries| + Before(entries, i) + |entries[i].data| <= |a|
    ensures var at := HEADER + ENTRY * |entries| + Before(entries, i); a[at..at + |entries[i].data|] == entries[i].data
  {
    var t, p := PackTable(entries, HEADER + ENTRY * |entries|), Payload(entries);
    DataAt(entries, i);
    LastPart(h, t, p, Before(entries, i), Before(entries, i) + |entries[i].data|);
  }

  /** Entry `i` is read back. */
  lemma PackedAt(a: seq<Byte>, h: seq<Byte>, entries: seq<Entry>, i: nat, strict: bool)
    requires Holds(a, h, entries) && AllFit(entries) && |a| < 0x1_0000_0000_0000_0000 && i < |entries|
    ensures EntryAt(a, i, HEADER + ENTRY * |entries|, strict) == Some(entries[i])
  {
    var start := HEADER + ENTRY * |entries|;
    PackedChunk(a, h, entries, i);
    ChunkDescribes(entries, start, i);
    PackedData(a, h, entries, i);
    EntryParses(a, a[HEADER + ENTRY * i..HEADER + ENTRY * (i + 1)], entries[i], start + Before(entries, i), start,
      strict);
  }

  /** The reader's entries so far. */
  ghost predicate ReadsAs(a: seq<Byte>, entries: seq<Entry>, n: nat, tableEnd: nat, strict: bool) {
    && HEADER + ENTRY * n <= |a| && n <= |entries|
    && forall i: nat :: i < n ==> EntryAt(a, i, tableEnd, strict) == Some(entries[i])
  }

  lemma {:induction false} TableParses(a: seq<Byte>, entries: seq<Entry>, n: nat, tableEnd: nat, strict: bool)
    requires ReadsAs(a, entries, n, tableEnd, strict)
    ensures ParseTable(a, n, tableEnd, strict) == Some(entries[..n])
  {
    if n > 0 {
      TableParses(a, entries, n - 1, tableEnd, strict);
      RowParses(a, entries, n, tableEnd, strict);
    }
  }

  lemma RowParses(a: seq<Byte>, entries: seq<Entry>, n: nat, tableEnd: nat, strict: bool)
    requires 0 < n <= |entries| && HEADER + ENTRY * n <= |a| && HEADER + ENTRY * (n - 1) <= |a|
    requires EntryAt(a, n - 1, tableEnd, strict) == Some(entries[n - 1])
    requires ParseTable(a, n - 1, tableEnd, strict) == Some(entries[..n - 1])
    ensures ParseTable(a, n, tableEnd, strict) == Some(entries[..n])
  {
    assert entries[..n - 1] + [entries[n - 1]] == entries[..n];
  }

  lemma AllPacked(a: seq<Byte>, h: seq<Byte>, entries: seq<Entry>, strict: bool)
    requires Holds(a, h, entries) && AllFit(entries) && |a| < 0x1_0000_0000_0000_0000
    ensures ReadsAs(a, entries, |entries|, HEADER + ENTRY * |entries|, strict)
  {
    forall i: nat | i < |entries|
      ensures EntryAt(a, i, HEADER + ENTRY * |entries|, strict) == Some(entries[i])
    {
      PackedAt(a, h, entries, i, strict);
    }
  }

  /** The fields of the header. */
  lemma FrontFields(a: seq<Byte>, b: seq<Byte>, c: seq<Byte>, d: seq<Byte>, t: seq<Byte>, p: seq<Byte>)
    requires |a| == 8 && |b| == 4 && |c| == 4 && |d| == 8
    ensures var s := Join(a + b + c + d, t, p); s[..8] == a && s[8..12] == b && s[12..16] == c && s[16..24] == d
  {
    var s := Join(a + b + c + d, t, p);
    assert s[..24] == a + b + c + d;
    assert s[..8] == s[..24][..8] && s[8..12] == s[..24][8..12] && s[12..16] == s[..24][12..16];
    assert s[16..24] == s[..24][16..24];
  }

  lemma HeaderReads(entries: seq<Entry>)
    requires Packable(entries)
    ensures var a := Pack(entries);
      a[..8] == Magic() && Decode(a[8..12]) == 1 && Decode(a[12..16]) == |entries| && Decode(a[16..24]) == |a|
  {
    var start := HEADER + ENTRY * |entries|;
    var total := start + |Payload(entries)|;
    Moduli();
    FrontFields(Magic(), Encode(1, 4), Encode(|entries|, 4), Encode(total, 8), PackTable(entries, start),
      Payload(entries));
    DecodeEncode(1, 4);
    DecodeEncode(|entries|, 4);
    DecodeEncode(total, 8);
  }

  lemma TableReads(entries: seq<Entry>, strict: bool)
    requires Packable(entries)
    ensures ParseTable(Pack(entries), |entries|, HEADER + ENTRY * |entries|, strict) == Some(entries)
  {
    var start := HEADER + ENTRY * |entries|;
    AllPacked(Pack(entries), Header(|entries|, start + |Payload(entries)|), entries, strict);
    TableParses(Pack(entries), entries, |entries|, start, strict);
    assert entries[..|entries|] == entries;
  }

  /** Both readers get back exactly the entries that were packed, in order. */
  lemma RoundTrip(entries: seq<Entry>, strict: bool)
    requires Packable(entries)
    ensures Parse(Pack(entries), strict) == Some(entries)
  {
    HeaderReads(entries);
    TableReads(entries, strict);
  }

  // ---------- What a reader accepts, row by row ----------

  /** A row of the table that a reader takes, by the bytes of its fields. */
  ghost predicate RowTaken(a: seq<Byte>, i: nat, n: nat, strict: bool)
    requires i < n && 24 + 152 * n <= |a|
  {
    var at := 24 + 152 * i;
    var kind, size, offset := Decode(a[at + 128..at + 132]), Decode(a[at + 136..at + 144]),
                              Decode(a[at + 144..at + 152]);
    && (strict ==> IsText(Text(a[at..at + 128])))
    && if kind == 1 then strict ==> size == 0
       else kind == 2 && offset + size <= |a| && (strict ==> offset >= 24 + 152 * n)
  }

  /** The entry of a row, by the bytes of its fields. */
  ghost predicate RowMeans(a: seq<Byte>, i: nat, e: Entry)
    requires 24 + 152 * (i + 1) <= |a|
  {
    var at := 24 + 152 * i;
    var kind, size, offset := Decode(a[at + 128..at + 132]), Decode(a[at + 136..at + 144]),
                              Decode(a[at + 144..at + 152]);
    && e.path == Text(a[at..at + 128]) && e.mode == Decode(a[at + 132..at + 136])
    && (e.kind == Directory <==> kind == 1)
    && if kind == 1 then e.data == [] else offset + size <= |a| && e.data == a[offset..offset + size]
  }

  lemma RowRead(a: seq<Byte>, i: nat, n: nat, strict: bool)
    requires i < n && HEADER + ENTRY * n <= |a|
    ensures 24 + 152 * (i + 1) <= |a|
    ensures var r := EntryAt(a, i, HEADER + ENTRY * n, strict);
      (r.Some? <==> RowTaken(a, i, n, strict)) && (r.Some? ==> RowMeans(a, i, r.value))
  {
    var at := HEADER + ENTRY * i;
    Field(a, at, 0, 128);
    Field(a, at, 128, 132);
    Field(a, at, 132, 136);
    Field(a, at, 136, 144);
    Field(a, at, 144, 152);
  }

  lemma Field(a: seq<Byte>, at: nat, i: nat, j: nat)
    requires at + ENTRY <= |a| && i <= j <= ENTRY
    ensures a[at..at + ENTRY][i..j] == a[at + i..at + j]
  {
    var inner := a[at..at + ENTRY][i..j];
    assert forall k :: 0 <= k < j - i ==> inner[k] == a[at + i + k];
  }

  ghost predicate RowsMean(a: seq<Byte>, n: nat, entries: seq<Entry>)
    requires 24 + 152 * n <= |a|
  {
    |entries| == n && forall i :: 0 <= i < n ==> RowMeans(a, i, entries[i])
  }

  lemma RowsMeanMore(a: seq<Byte>, n: nat, entries: seq<Entry>, e: Entry)
    requires 24 + 152 * (n + 1) <= |a| && RowsMean(a, n, entries) && RowMeans(a, n, e)
    ensures RowsMean(a, n + 1, entries + [e])
  {
  }

  ghost predicate RowsTaken(a: seq<Byte>, k: nat, n: nat, strict: bool)
    requires k <= n && 24 + 152 * n <= |a|
  {
    forall i :: 0 <= i < k ==> RowTaken(a, i, n, strict)
  }

  lemma RowsTakenMore(a: seq<Byte>, k: nat, n: nat, strict: bool)
    requires k < n && 24 + 152 * n <= |a|
    ensures RowsTaken(a, k + 1, n, strict) <==> RowsTaken(a, k, n, strict) && RowTaken(a, k, n, strict)
  {
  }

  /** The first `k` of `n` rows are read exactly when all of them are taken, and as what they mean. */
  ghost predicate ReadsRows(a: seq<Byte>, k: nat, n: nat, strict: bool)
    requires k <= n && 24 + 152 * n <= |a|
  {
    var r := ParseTable(a, k, HEADER + ENTRY * n, strict);
    (r.Some? <==> RowsTaken(a, k, n, strict)) && (r.Some? ==> RowsMean(a, k, r.value))
  }

  lemma ReadsMore(a: seq<Byte>, k: nat, n: nat, strict: bool)
    requires k < n && 24 + 152 * n <= |a| && ReadsRows(a, k, n, strict)
    ensures ReadsRows(a, k + 1, n, strict)
  {
    RowRead(a, k, n, strict);
    RowsTakenMore(a, k, n, strict);
    var end := HEADER + ENTRY * n;
    var front, e := ParseTable(a, k, end, strict), EntryAt(a, k, end, strict);
    if front.Some? && e.Some? {
      RowsMeanMore(a, k, front.value, e.value);
      assert ParseTable(a, k + 1, end, strict) == Some(front.value + [e.value]);
    }
  }

  lemma {:induction false} TableRead(a: seq<Byte>, k: nat, n: nat, strict: bool)
    requires k <= n && 24 + 152 * n <= |a|
    ensures ReadsRows(a, k, n, strict)
  {
    if k > 0 {
      var j := k - 1;
      TableRead(a, j, n, strict);
      ReadsMore(a, j, n, strict);
    }
  }

  /**
   A reader accepts an archive if and only if its header is right and it takes every row, and
   returns the entries of the rows, in order.
   */
  lemma ArchiveRead(a: seq<Byte>, strict: bool)
    ensures Parse(a, strict).Some? <==>
      && |a| >= 24 && a[..8] == [65, 75, 65, 79, 83, 82, 65, 77] && Decode(a[8..12]) == 1
      && var n := Decode(a[12..16]);
         && 24 + 152 * n <= |a| && (strict ==> Decode(a[16..24]) == |a|)
         && RowsTaken(a, n, n, strict)
    ensures Parse(a, strict).Some? ==> RowsMean(a, Decode(a[12..16]), Parse(a, strict).value)
  {
    if |a| >= 24 {
      var n := Decode(a[12..16]);
      if HEADER + ENTRY * n <= |a| {
        TableRead(a, n, n, strict);
      }
    }
  }
}

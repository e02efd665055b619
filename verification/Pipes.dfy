/**
 The ring buffer of a pipe, with writers and readers that give way to each other between
 chunks (xscore/kernel/file.c). `sent` and `got` record every byte that ever went in and
 came out.
 */
module Pipes {
  import opened Bytes

  const SIZE: nat := 4096

  /** `all` consists of the bytes of `a` and of `b`, each in its own order. */
  ghost predicate Merges(all: seq<Byte>, a: seq<Byte>, b: seq<Byte>)
    decreases |all|
  {
    if all == [] then a == [] && b == []
    else
      || (a != [] && a[0] == all[0] && Merges(all[1..], a[1..], b))
      || (b != [] && b[0] == all[0] && Merges(all[1..], a, b[1..]))
  }

  lemma {:induction false} MergesRight(all: seq<Byte>, a: seq<Byte>, b: seq<Byte>, x: seq<Byte>)
    requires Merges(all, a, b)
    ensures Merges(all + x, a, b + x)
    decreases |all|
  {
    if all == [] {
      OnlyRight(x);
      assert all + x == x && b + x == x;
    } else {
      assert (all + x)[1..] == all[1..] + x;
      if a != [] && a[0] == all[0] && Merges(all[1..], a[1..], b) {
        MergesRight(all[1..], a[1..], b, x);
      } else {
        MergesRight(all[1..], a, b[1..], x);
        assert (b + x)[1..] == b[1..] + x;
      }
    }
  }

  lemma {:induction false} OnlyRight(x: seq<Byte>)
    ensures Merges(x, [], x)
  {
    if x != [] {
      OnlyRight(x[1..]);
    }
  }

  lemma {:induction false} MergesSwap(all: seq<Byte>, a: seq<Byte>, b: seq<Byte>)
    requires Merges(all, a, b)
    ensures Merges(all, b, a)
    decreases |all|
  {
    if all != [] {
      if a != [] && a[0] == all[0] && Merges(all[1..], a[1..], b) {
        MergesSwap(all[1..], a[1..], b);
      } else {
        MergesSwap(all[1..], a, b[1..]);
      }
    }
  }

  lemma MergesLeft(all: seq<Byte>, a: seq<Byte>, b: seq<Byte>, x: seq<Byte>)
    requires Merges(all, a, b)
    ensures Merges(all + x, a + x, b)
  {
    MergesSwap(all, a, b);
    MergesRight(all, b, a, x);
    MergesSwap(all + x, b, a + x);
  }

  /** A merge has as many bytes as its parts, so none is lost or repeated. */
  lemma {:induction false} MergesCount(all: seq<Byte>, a: seq<Byte>, b: seq<Byte>)
    requires Merges(all, a, b)
    ensures |all| == |a| + |b| && multiset(all) == multiset(a) + multiset(b)
    decreases |all|
  {
    if all != [] {
      assert all == [all[0]] + all[1..];
      if a != [] && a[0] == all[0] && Merges(all[1..], a[1..], b) {
        MergesCount(all[1..], a[1..], b);
        assert a == [a[0]] + a[1..];
      } else {
        MergesCount(all[1..], a, b[1..]);
        assert b == [b[0]] + b[1..];
      }
    }
  }

  /** `count` bytes of a ring from `start` on. */
  ghost function Ring(buffer: seq<Byte>, start: nat, count: nat): (c: seq<Byte>)
    requires |buffer| == SIZE
    ensures |c| == count
  {
    seq<Byte>(count, i requires 0 <= i < count => buffer[(start + i) % SIZE])
  }

  lemma RingPut(buffer: seq<Byte>, start: nat, count: nat, x: Byte)
    requires |buffer| == SIZE && start < SIZE && count < SIZE
    ensures Ring(buffer[(start + count) % SIZE := x], start, count + 1) == Ring(buffer, start, count) + [x]
  {
    var more := Ring(buffer[(start + count) % SIZE := x], start, count + 1);
    forall i | 0 <= i < count + 1
      ensures more[i] == (Ring(buffer, start, count) + [x])[i]
    {
      Apart(start, i, count);
    }
  }

  lemma RingGet(buffer: seq<Byte>, start: nat, count: nat)
    requires |buffer| == SIZE && start < SIZE && count > 0
    ensures Ring(buffer, start, count) == [buffer[start]] + Ring(buffer, (start + 1) % SIZE, count - 1)
  {
    var rest := Ring(buffer, (start + 1) % SIZE, count - 1);
    forall i | 0 <= i < count - 1
      ensures rest[i] == Ring(buffer, start, count)[i + 1]
    {
      Next(start, i);
    }
  }

  /** Different places in the ring are different entries of the buffer. */
  lemma Apart(start: nat, i: nat, j: nat)
    requires start < SIZE && i < SIZE && j < SIZE
    ensures (start + i) % SIZE == (start + j) % SIZE <==> i == j
  {
  }

  lemma Next(start: nat, i: nat)
    ensures ((start + 1) % SIZE + i) % SIZE == (start + (i + 1)) % SIZE
  {
  }

  datatype Outcome = Moved(count: nat) | EndOfFile | BrokenPipe | WouldBlock | Interrupted

  class Pipe {
    var buffer: array<Byte>
    var readPos: nat
    var writePos: nat
    var count: nat
    var readers: nat
    var writers: nat
    ghost var sent: seq<Byte>
    ghost var got: seq<Byte>

    ghost predicate Shape()
      reads this, buffer
    {
      && buffer.Length == SIZE && readPos < SIZE && count <= SIZE
      && writePos == (readPos + count) % SIZE
    }

    /** The bytes in the ring, oldest first. */
    ghost function Contents(): seq<Byte>
      requires Shape()
      reads this, buffer
    {
      Ring(buffer[..], readPos, count)
    }

    /** First in, first out: what came out, followed by what is inside, is what went in. */
    ghost predicate Valid()
      reads this, buffer
    {
      Shape() && sent == got + Contents()
    }

    constructor ()
      ensures Valid() && sent == [] && fresh(buffer)
    {
      buffer := new Byte[SIZE](_ => 0);
      readPos, writePos, count, readers, writers := 0, 0, 0, 1, 1;
      sent, got := [], [];
    }

    method PutByte(x: Byte)
      requires Shape() && count < SIZE
      modifies this`writePos, this`count, buffer
      ensures Shape() && count == old(count) + 1 && Contents() == old(Contents()) + [x]
    {
      RingPut(buffer[..], readPos, count, x);
      Next(readPos, count);
      ghost var before := buffer[..];
      buffer[writePos] := x;
      assert buffer[..] == before[writePos := x];
      WrapNext(readPos, count);
      writePos := (writePos + 1) % SIZE;
      count := count + 1;
    }

    method GetByte() returns (x: Byte)
      requires Shape() && count > 0
      modifies this`readPos, this`count
      ensures Shape() && count == old(count) - 1 && old(Contents()) == [x] + Contents()
    {
      RingGet(buffer[..], readPos, count);
      x := buffer[readPos];
      Next(readPos, count - 1);
      readPos := (readPos + 1) % SIZE;
      count := count - 1;
    }

    /** As much of the data as there is room for, in one go. */
    method PutChunk(data: seq<Byte>) returns (n: nat)
      requires Valid()
      modifies this`writePos, this`count, this`sent, buffer
      ensures Valid() && n == (if |data| < SIZE - old(count) then |data| else SIZE - old(count))
      ensures count == old(count) + n && sent == old(sent) + data[..n]
    {
      n := if |data| < SIZE - count then |data| else SIZE - count;
      ghost var before := Contents();
      var i := 0;
      while i < n
        invariant i <= n && Shape() && sent == old(sent) && count == |before| + i && Contents() == before + data[..i]
      {
        PutByte(data[i]);
        i := i + 1;
        assert data[..i] == data[..i - 1] + [data[i - 1]];
      }
      sent := sent + data[..n];
    }

    /** As much as there is and as was asked for, in one go. */
    method GetChunk(length: nat) returns (data: seq<Byte>)
      requires Valid()
      modifies this`readPos, this`count, this`got
      ensures Valid() && |data| == (if length < old(count) then length else old(count))
      ensures data == old(Contents())[..|data|] && got == old(got) + data && sent == old(sent)
    {
      var n := if length < count then length else count;
      ghost var before := Contents();
      data := [];
      while |data| < n
        invariant |data| <= n && Shape() && got == old(got) && count == |before| - |data| && before == data + Contents()
      {
        data := GetNext(data, before);
      }
      got := got + data;
    }

    method GetNext(data: seq<Byte>, ghost before: seq<Byte>) returns (data': seq<Byte>)
      requires Shape() && count > 0 && before == data + Contents()
      modifies this`readPos, this`count
      ensures Shape() && count == old(count) - 1 && |data'| == |data| + 1 && before == data' + Contents()
    {
      var x := GetByte();
      Regroup(data, x, Contents());
      data' := data + [x];
    }

    /** Others run: they may read, write and close ends, but only through the pipe's own operations. */
    method Yield()
      requires Valid()
      modifies this, buffer
      ensures Valid() && buffer == old(buffer)
      ensures old(sent) <= sent && old(got) <= got
    {
      var turns: nat := *;
      while turns > 0
        invariant Valid() && buffer == old(buffer) && old(sent) <= sent && old(got) <= got
      {
        var more: seq<Byte>, length: nat := *, *;
        var n := PutChunk(more);
        var data := GetChunk(length);
        turns := turns - 1;
      }
      readers, writers := *, *;
    }

    /**
     `read`: the next bytes in the order in which they were written, or the end of the file
     once the pipe is empty and has no writer. A signal comes after `patience` yields.
     */
    method Read(length: nat, nonblocking: bool, patience: nat) returns (r: Outcome, data: seq<Byte>)
      requires Valid()
      modifies this, buffer
      ensures Valid() && buffer == old(buffer)
      ensures r == EndOfFile || r == WouldBlock || r == Interrupted || r == Moved(|data|)
      ensures r.Moved? ==> old(got) <= got && |data| <= |got| && got[|got| - |data|..] == data
      ensures r.Moved? && old(count) > 0 ==> got == old(got) + data && data <= old(Contents())
      ensures r.Moved? && old(count) > 0 ==> |data| == (if length < old(count) then length else old(count))
      ensures r.Moved? && length > 0 ==> |data| > 0
      ensures r == EndOfFile ==> count == 0 && writers == 0 && got == sent
      ensures old(count) > 0 ==> r.Moved?
      ensures r == WouldBlock || r == Interrupted ==> nonblocking == (r == WouldBlock) && count == 0 && writers > 0
    {
      data := [];
      var waited := 0;
      while count == 0
        invariant Valid() && buffer == old(buffer) && old(got) <= got && waited <= patience
        invariant old(count) > 0 ==> waited == 0 && got == old(got) && count == old(count)
        invariant old(count) > 0 ==> Contents() == old(Contents())
        decreases patience - waited
      {
        if writers == 0 {
          return EndOfFile, [];
        }
        if nonblocking {
          return WouldBlock, [];
        }
        if waited == patience {
          return Interrupted, [];
        }
        Yield();
        waited := waited + 1;
      }
      data := GetChunk(length);
      r := Moved(|data|);
    }

    /**
     `write`: the bytes that were taken are in the pipe's history in order, merged with what
     others wrote meanwhile; none is lost, repeated or reordered.
     */
    method Write(data: seq<Byte>, nonblocking: bool, patience: nat)
      returns (r: Outcome, n: nat, ghost others: seq<Byte>)
      requires Valid()
      modifies this, buffer
      ensures Valid() && buffer == old(buffer) && n <= |data|
      ensures r == Moved(n) || (n == 0 && (r == BrokenPipe || r == WouldBlock || r == Interrupted))
      ensures old(sent) <= sent && Merges(sent[|old(sent)|..], data[..n], others)
      ensures r == BrokenPipe ==> readers == 0
      ensures r == WouldBlock || r == Interrupted ==> nonblocking == (r == WouldBlock)
      ensures r != BrokenPipe && n < |data| ==> readers == 0 || count == SIZE
      ensures old(readers) > 0 && |data| <= SIZE - old(count) ==> r == Moved(|data|) && others == []
    {
      n, others := 0, [];
      if readers == 0 {
        return BrokenPipe, 0, [];
      }
      var waited := 0;
      while n < |data|
        invariant Valid() && buffer == old(buffer) && n <= |data| && waited <= patience
        invariant Shared(old(sent), sent, data[..n], others)
        invariant |data| <= SIZE - old(count) ==>
          (n == 0 && others == [] && count == old(count) && readers == old(readers)) || (n == |data| && others == [])
        decreases patience - waited, |data| - n
      {
        if readers == 0 {
          return if n > 0 then Moved(n) else BrokenPipe, n, others;
        }
        if count >= SIZE {
          if nonblocking {
            return if n > 0 then Moved(n) else WouldBlock, n, others;
          }
          if waited == patience {
            return if n > 0 then Moved(n) else Interrupted, n, others;
          }
          ghost var before := sent;
          Yield();
          others := SharedByOthers(old(sent), before, sent, data[..n], others);
          waited := waited + 1;
        } else {
          ghost var before, had := sent, n;
          var more := PutChunk(data[n..]);
          n := n + more;
          assert data[..n] == data[..had] + data[had..][..more];
          SharedByMe(old(sent), before, data[..had], data[had..][..more], others);
        }
      }
      r := Moved(n);
    }
  }

  lemma Regroup(a: seq<Byte>, x: Byte, b: seq<Byte>)
    ensures a + ([x] + b) == (a + [x]) + b
  {
  }

  /** What has been sent since `from` is `mine` merged with `others`. */
  ghost predicate Shared(from: seq<Byte>, sent: seq<Byte>, mine: seq<Byte>, others: seq<Byte>) {
    from <= sent && Merges(sent[|from|..], mine, others)
  }

  lemma SharedByMe(from: seq<Byte>, sent: seq<Byte>, mine: seq<Byte>, more: seq<Byte>, others: seq<Byte>)
    requires Shared(from, sent, mine, others)
    ensures Shared(from, sent + more, mine + more, others)
  {
    MergesLeft(sent[|from|..], mine, others, more);
    assert (sent + more)[|from|..] == sent[|from|..] + more;
  }

  lemma SharedByOthers(from: seq<Byte>, sent: seq<Byte>, now: seq<Byte>, mine: seq<Byte>, others: seq<Byte>)
    returns (others': seq<Byte>)
    requires Shared(from, sent, mine, others) && sent <= now
    ensures Shared(from, now, mine, others')
    ensures others' == others + now[|sent|..]
  {
    var more := now[|sent|..];
    others' := others + more;
    MergesRight(sent[|from|..], mine, others, more);
    assert now == sent + more;
    assert now[|from|..] == sent[|from|..] + more;
  }

  lemma WrapNext(start: nat, count: nat)
    ensures ((start + count) % SIZE + 1) % SIZE == (start + (count + 1)) % SIZE
  {
  }
}

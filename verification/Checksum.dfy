/**
 The Internet checksum and the echo replies that carry it (xscore/kernel/net.c).
 */
module Checksum {
  import opened Bytes

  const PACKET_MAX: nat := 1536

  /** A word in memory order, low byte first. */
  function Word(lo: Byte, hi: Byte): (w: nat)
    ensures w < 0x1_0000
  {
    (lo as nat) + 256 * (hi as nat)
  }

  /** The sum of the 16-bit words; an odd last byte stands alone. */
  function Sum(data: seq<Byte>): nat {
    if |data| >= 2 then Word(data[0], data[1]) + Sum(data[2..])
    else if |data| == 1 then data[0]
    else 0
  }

  /** Adding the carry back in until it fits 16 bits. */
  function Fold(sum: nat): (r: nat)
    ensures r < 0x1_0000
    ensures r % 0xFFFF == sum % 0xFFFF
    ensures r == 0 <==> sum == 0
  {
    if sum < 0x1_0000 then sum
    else
      CarryKeeps(sum);
      Fold(sum % 0x1_0000 + sum / 0x1_0000)
  }

  lemma CarryKeeps(sum: nat)
    requires sum >= 0x1_0000
    ensures (sum % 0x1_0000 + sum / 0x1_0000) % 0xFFFF == sum % 0xFFFF
    ensures 0 < sum % 0x1_0000 + sum / 0x1_0000 < sum
  {
    var low, high := sum % 0x1_0000, sum / 0x1_0000;
    assert sum == (low + high) + 0xFFFF * high;
    Multiple(low + high, high);
  }

  lemma Multiple(a: nat, k: nat)
    ensures (a + 0xFFFF * k) % 0xFFFF == a % 0xFFFF
  {
  }

  function Checksum(data: seq<Byte>): (c: nat)
    ensures c < 0x1_0000
  {
    0xFFFF - Fold(Sum(data))
  }

  // ---------- Sums of parts ----------

  /** Changing the word at an even offset changes the sum by the difference. */
  lemma {:induction false} SumPatch(data: seq<Byte>, at: nat, lo: Byte, hi: Byte)
    requires at % 2 == 0 && at + 2 <= |data|
    ensures Sum(Patch(data, at, [lo, hi])) + Word(data[at], data[at + 1]) == Sum(data) + Word(lo, hi)
    decreases at
  {
    var t := Patch(data, at, [lo, hi]);
    if at == 0 {
      assert t[2..] == data[2..];
    } else {
      assert t[2..] == Patch(data[2..], at - 2, [lo, hi]);
      SumPatch(data[2..], at - 2, lo, hi);
    }
  }

  /** An odd last byte counts as if a zero followed it. */
  lemma {:induction false} OddIsPadded(data: seq<Byte>)
    requires |data| % 2 == 1
    ensures Sum(data + [0]) == Sum(data)
  {
    if |data| == 1 {
      assert (data + [0])[2..] == [];
    } else {
      assert (data + [0])[2..] == data[2..] + [0];
      OddIsPadded(data[2..]);
    }
  }

  /** The example in section 3 of RFC 1071: the sum is stored as DD F2, and its complement as 22 0D. */
  lemma Rfc1071(data: seq<Byte>)
    requires data == [0x00, 0x01, 0xF2, 0x03, 0xF4, 0xF5, 0xF6, 0xF7]
    ensures Fold(Sum(data)) == Word(0xDD, 0xF2) && Checksum(data) == Word(0x22, 0x0D)
  {
    assert data[2..][2..] == data[4..] && data[4..][2..] == data[6..] && data[6..][2..] == [];
    assert Sum(data[6..]) == Word(0xF6, 0xF7);
    assert Sum(data[4..]) == Word(0xF4, 0xF5) + Word(0xF6, 0xF7);
    assert Sum(data) == 0x1_F2DC;
  }

  // ---------- What the checksum promises ----------

  /** The data with its own checksum stored at `at`. */
  function Sealed(data: seq<Byte>, at: nat): (r: seq<Byte>)
    requires at + 2 <= |data|
    ensures |r| == |data|
  {
    var blank := Patch(data, at, [0, 0]);
    Patch(blank, at, [Checksum(blank) % 256, Checksum(blank) / 256])
  }

  /** Data that carry their own checksum check to zero. */
  lemma SealedVerifies(data: seq<Byte>, at: nat)
    requires at % 2 == 0 && at + 2 <= |data|
    ensures Checksum(Sealed(data, at)) == 0
  {
    var blank := Patch(data, at, [0, 0]);
    var c := Checksum(blank);
    SumPatch(blank, at, c % 256, c / 256);
    var s := Sum(blank);
    assert Sum(Sealed(data, at)) == s + c;
    assert (s + c) % 0xFFFF == (Fold(s) + c) % 0xFFFF by {
      Congruent(s, Fold(s), c);
    }
  }

  lemma Congruent(a: nat, b: nat, c: nat)
    requires a % 0xFFFF == b % 0xFFFF
    ensures (a + c) % 0xFFFF == (b + c) % 0xFFFF
  {
    var k := a / 0xFFFF - b / 0xFFFF;
    assert a == b + 0xFFFF * k;
    if k >= 0 {
      Multiple(b + c, k);
    } else {
      Multiple(a + c, -k);
    }
  }

  lemma SameSum(a: seq<Byte>, b: seq<Byte>, x: nat, y: nat)
    requires Sum(a) == x && Sum(b) == y
    ensures Checksum(b) == Checksum(a) <==> Fold(x) == Fold(y)
  {
  }

  /**
   A change of one word goes unnoticed if and only if it turns 0 into 0xFFFF or back while
   some other word is not zero.
   */
  lemma OneWordChange(data: seq<Byte>, at: nat, lo: Byte, hi: Byte)
    requires at % 2 == 0 && at + 2 <= |data|
    ensures var was, now := Word(data[at], data[at + 1]), Word(lo, hi);
      var rest := Sum(data) - was;
      Checksum(Patch(data, at, [lo, hi])) == Checksum(data) <==>
        was == now || (rest > 0 && ((was == 0 && now == 0xFFFF) || (was == 0xFFFF && now == 0)))
  {
    var was, now := Word(data[at], data[at + 1]), Word(lo, hi);
    SumPatch(data, at, lo, hi);
    SumPatch(data, at, 0, 0);
    var rest: nat := Sum(Patch(data, at, [0, 0]));
    SameSum(data, Patch(data, at, [lo, hi]), rest + was, rest + now);
    Unnoticed(rest, was, now);
    assert Sum(data) - was == rest;
  }

  lemma Unnoticed(rest: nat, was: nat, now: nat)
    requires was < 0x1_0000 && now < 0x1_0000
    ensures Fold(rest + was) == Fold(rest + now) <==>
      was == now || (rest > 0 && ((was == 0 && now == 0xFFFF) || (was == 0xFFFF && now == 0)))
  {
    FoldEqual(rest + was, rest + now);
    Apart(rest, was, now);
  }

  lemma FoldEqual(a: nat, b: nat)
    ensures Fold(a) == Fold(b) <==> a % 0xFFFF == b % 0xFFFF && (a == 0 <==> b == 0)
  {
  }

  lemma Apart(rest: nat, a: nat, b: nat)
    requires a < 0x1_0000 && b < 0x1_0000
    ensures (rest + a) % 0xFFFF == (rest + b) % 0xFFFF <==> a == b || (a == 0 && b == 0xFFFF) || (a == 0xFFFF && b == 0)
  {
    if (rest + a) % 0xFFFF == (rest + b) % 0xFFFF {
      var k := (rest + a) / 0xFFFF - (rest + b) / 0xFFFF;
      assert a - b == 0xFFFF * k;
    }
    Multiple(rest, 1);
  }

  // ---------- The code ----------

  /** `net_checksum`: the 32-bit sum of a packet never overflows. */
  method Compute(buffer: array<Byte>, from: nat, length: nat) returns (c: nat)
    requires from + length <= buffer.Length && length <= PACKET_MAX
    ensures c == Checksum(buffer[from..from + length])
  {
    var sum: nat, at: nat, left: nat := 0, from, length;
    ghost var all, words := buffer[from..from + length], 0;
    WholeLeft(all);
    while left > 1
      invariant left == length - 2 * words && at == from + 2 * words && 0 <= 2 * words <= length
      invariant sum + Left(all, 2 * words) == Sum(all) && sum <= words * 0xFFFF
    {
      LeftStep(all, 2 * words);
      assert all[2 * words] == buffer[at] && all[2 * words + 1] == buffer[at + 1];
      sum := sum + Word(buffer[at], buffer[at + 1]);
      assert sum < 0x1_0000_0000;
      at := at + 2;
      left := left - 2;
      words := words + 1;
    }
    LeftEnd(all, 2 * words);
    if left == 1 {
      sum := sum + buffer[at];
    }
    assert sum < 0x1_0000_0000;
    sum := FoldDown(sum);
    return 0xFFFF - sum;
  }

  /** The loop that adds the carry back in. */
  method FoldDown(start: nat) returns (sum: nat)
    ensures sum == Fold(start) < 0x1_0000
  {
    sum := start;
    while sum >= 0x1_0000
      invariant Fold(sum) == Fold(start)
      decreases sum
    {
      CarryKeeps(sum);
      sum := sum % 0x1_0000 + sum / 0x1_0000;
    }
  }

  /** The sum of what is left from `at` on. */
  ghost function Left(data: seq<Byte>, at: nat): nat
    requires at <= |data|
  {
    Sum(data[at..])
  }

  lemma WholeLeft(data: seq<Byte>)
    ensures Left(data, 0) == Sum(data)
  {
    assert data[0..] == data;
  }

  lemma LeftStep(data: seq<Byte>, at: nat)
    requires at + 2 <= |data|
    ensures Left(data, at) == Word(data[at], data[at + 1]) + Left(data, at + 2)
  {
    assert data[at..][2..] == data[at + 2..];
  }

  lemma LeftEnd(data: seq<Byte>, at: nat)
    requires |data| - 1 <= at <= |data|
    ensures Left(data, at) == if at < |data| then data[at] else 0
  {
  }

  /** Clears the checksum field of a part of the buffer, computes the checksum and stores it. */
  method SealPart(buffer: array<Byte>, from: nat, length: nat, at: nat)
    requires from + length <= buffer.Length && length <= PACKET_MAX && at + 2 <= length
    modifies buffer
    ensures buffer[from..from + length] == Sealed(old(buffer[from..from + length]), at)
    ensures forall i :: 0 <= i < buffer.Length && !(from + at <= i < from + at + 2) ==> buffer[i] == old(buffer[i])
  {
    ghost var before := buffer[from..from + length];
    buffer[from + at], buffer[from + at + 1] := 0, 0;
    assert buffer[from..from + length] == Patch(before, at, [0, 0]);
    var c := Compute(buffer, from, length);
    buffer[from + at], buffer[from + at + 1] := c % 256, c / 256;
    assert buffer[from..from + length] == Patch(Patch(before, at, [0, 0]), at, [c % 256, c / 256]);
  }

  const IP: nat := 14
  const ICMP: nat := 34

  /** The two checksum fields of an echo message. */
  predicate InChecksum(i: nat) {
    IP + 10 <= i < IP + 12 || ICMP + 2 <= i < ICMP + 4
  }

  /** Byte `i` of the reply: addresses swapped, type 0, everything else as it came. */
  function Replied(frame: seq<Byte>, mac: seq<Byte>, i: nat): Byte
    requires ICMP + 8 <= |frame| && |mac| == 6 && i < |frame|
  {
    if i < 6 then frame[i + 6]
    else if i < 12 then mac[i - 6]
    else if IP + 12 <= i < IP + 16 then frame[i + 4]
    else if IP + 16 <= i < IP + 20 then frame[i - 4]
    else if i == ICMP then 0
    else frame[i]
  }

  /** The reply before its checksums are filled in, copy by copy. */
  function Addressed(frame: seq<Byte>, mac: seq<Byte>): (r: seq<Byte>)
    requires ICMP + 8 <= |frame| && |mac| == 6
    ensures |r| == |frame|
  {
    var a := Patch(Patch(frame, 0, frame[6..12]), 6, mac);
    var b := Patch(Patch(a, IP + 12, frame[IP + 16..IP + 20]), IP + 16, frame[IP + 12..IP + 16]);
    Patch(b, ICMP, [0])
  }

  lemma AddressedAt(frame: seq<Byte>, mac: seq<Byte>, i: nat)
    requires ICMP + 8 <= |frame| && |mac| == 6 && i < |frame|
    ensures Addressed(frame, mac)[i] == Replied(frame, mac, i)
  {
  }

  method Address(frame: seq<Byte>, mac: seq<Byte>) returns (reply: array<Byte>)
    requires ICMP + 8 <= |frame| && |mac| == 6
    ensures fresh(reply) && reply[..] == Addressed(frame, mac)
  {
    reply := new Byte[|frame|](i requires 0 <= i < |frame| => frame[i]);
    assert reply[..] == frame;
    Copy(reply, 0, frame[6..12]);
    Copy(reply, 6, mac);
    Copy(reply, IP + 12, frame[IP + 16..IP + 20]);
    Copy(reply, IP + 16, frame[IP + 12..IP + 16]);
    Copy(reply, ICMP, [0]);
  }

  /** Fills in the checksum of the header, then that of the message. */
  method SealBoth(reply: array<Byte>)
    requires ICMP + 8 <= reply.Length <= PACKET_MAX
    modifies reply
    ensures Checksum(reply[IP..ICMP]) == 0 && Checksum(reply[ICMP..]) == 0
    ensures forall i: nat :: i < reply.Length && !InChecksum(i) ==> reply[i] == old(reply[i])
  {
    SealedVerifies(reply[IP..IP + 20], 10);
    SealPart(reply, IP, 20, 10);
    ghost var header := reply[IP..ICMP];
    SealedVerifies(reply[ICMP..ICMP + (reply.Length - ICMP)], 2);
    SealPart(reply, ICMP, reply.Length - ICMP, 2);
    assert reply[ICMP..] == reply[ICMP..ICMP + (reply.Length - ICMP)];
    forall i | 0 <= i < |header|
      ensures reply[IP..ICMP][i] == header[i]
    {
      assert reply[IP + i] == header[i];
    }
    assert reply[IP..ICMP] == header;
  }

  /** An echo reply, with both checksums right. */
  method EchoReply(frame: seq<Byte>, mac: seq<Byte>) returns (reply: array<Byte>)
    requires ICMP + 8 <= |frame| <= PACKET_MAX && |mac| == 6
    ensures fresh(reply) && reply.Length == |frame|
    ensures Checksum(reply[IP..ICMP]) == 0 && Checksum(reply[ICMP..]) == 0
    ensures forall i: nat :: i < |frame| && !InChecksum(i) ==> reply[i] == Replied(frame, mac, i)
    ensures reply[0..6] == frame[6..12] && reply[6..12] == mac && reply[12..24] == frame[12..24]
    ensures reply[26..30] == frame[30..34] && reply[30..34] == frame[26..30]
    ensures reply[34] == 0 && reply[35] == frame[35] && reply[38..] == frame[38..]
  {
    reply := Address(frame, mac);
    ghost var all := reply[..];
    forall i: nat | i < |frame|
      ensures reply[i] == Replied(frame, mac, i)
    {
      AddressedAt(frame, mac, i);
      assert reply[i] == all[i];
    }
    SealBoth(reply);
  }

  /** The header and message that tell a sender that its packet lived too long: 56 bytes, from the gateway 10.0.2.2. */
  function Exceeded(frame: seq<Byte>, mac: seq<Byte>): (r: seq<Byte>)
    requires ICMP + 8 <= |frame| && |mac| == 6
    ensures |r| == ICMP + 36
  {
    frame[6..12] + mac + frame[12..14]
    + [0x45, 0, 0, 56, 0x34, 0x12, 0, 0, 64, 1, 0, 0, 10, 0, 2, 2] + frame[IP + 12..IP + 16]
    + [11, 0, 0, 0, 0, 0, 0, 0] + frame[IP..ICMP + 8]
  }

  /** A time-exceeded message, with both checksums right, that carries the start of the datagram it answers. */
  method TimeExceeded(frame: seq<Byte>, mac: seq<Byte>) returns (reply: array<Byte>)
    requires ICMP + 8 <= |frame| && |mac| == 6
    ensures fresh(reply) && reply.Length == ICMP + 36
    ensures Checksum(reply[IP..ICMP]) == 0 && Checksum(reply[ICMP..]) == 0
    ensures forall i: nat :: i < reply.Length && !InChecksum(i) ==> reply[i] == Exceeded(frame, mac)[i]
    ensures reply[ICMP + 8..] == frame[IP..ICMP + 8]
    ensures reply[0..6] == frame[6..12] && reply[6..12] == mac && reply[12..14] == frame[12..14]
    ensures reply[14..24] == [0x45, 0, 0, 56, 0x34, 0x12, 0, 0, 64, 1] && reply[26..30] == [10, 0, 2, 2]
    ensures reply[30..34] == frame[26..30] && reply[34..36] == [11, 0] && reply[38..42] == [0, 0, 0, 0]
  {
    var message := Exceeded(frame, mac);
    reply := new Byte[|message|](i requires 0 <= i < |message| => message[i]);
    SealBoth(reply);
    ExceededFields(frame, mac, reply[..]);
    assert reply[ICMP + 8..] == reply[..][ICMP + 8..];
  }

  /** The fields of the message, whatever its checksums. */
  lemma ExceededFields(frame: seq<Byte>, mac: seq<Byte>, r: seq<Byte>)
    requires ICMP + 8 <= |frame| && |mac| == 6 && |r| == ICMP + 36
    requires forall i: nat :: i < |r| && !InChecksum(i) ==> r[i] == Exceeded(frame, mac)[i]
    ensures r[0..6] == frame[6..12] && r[6..12] == mac && r[12..14] == frame[12..14]
    ensures r[14..24] == [0x45, 0, 0, 56, 0x34, 0x12, 0, 0, 64, 1] && r[26..30] == [10, 0, 2, 2]
    ensures r[30..34] == frame[26..30] && r[34..36] == [11, 0] && r[38..42] == [0, 0, 0, 0]
    ensures r[ICMP + 8..] == frame[IP..ICMP + 8]
  {
    var e := Exceeded(frame, mac);
    assert r[0..14] == e[0..14] == frame[6..12] + mac + frame[12..14];
    assert r[14..24] == e[14..24] && r[26..30] == e[26..30] && r[30..34] == e[30..34];
    assert r[34..36] == e[34..36] && r[38..42] == e[38..42];
    forall i | ICMP + 8 <= i < |r|
      ensures r[i] == frame[i - 28]
    {
      CarriesStart(frame, mac, i);
    }
  }

  lemma CarriesStart(frame: seq<Byte>, mac: seq<Byte>, i: nat)
    requires ICMP + 8 <= |frame| && |mac| == 6 && ICMP + 8 <= i < ICMP + 36
    ensures Exceeded(frame, mac)[i] == frame[i - 28]
  {
    assert Exceeded(frame, mac)[ICMP + 8..] == frame[IP..ICMP + 8];
    assert Exceeded(frame, mac)[i] == Exceeded(frame, mac)[ICMP + 8..][i - (ICMP + 8)];
  }

  method Copy(buffer: array<Byte>, at: nat, data: seq<Byte>)
    requires at + |data| <= buffer.Length
    modifies buffer
    ensures buffer[..] == Patch(old(buffer[..]), at, data)
  {
    var i := 0;
    while i < |data|
      invariant i <= |data|
      invariant forall j :: 0 <= j < buffer.Length ==>
        buffer[j] == if at <= j < at + i then data[j - at] else old(buffer[j])
    {
      buffer[at + i] := data[i];
      i := i + 1;
    }
  }
}

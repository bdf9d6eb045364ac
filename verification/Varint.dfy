/** Base-128 integers: seven bits a byte, least significant group first, the top bit of
    a byte set while another one follows.  One writer and three readers share the form;
    they differ in how many bytes they take and how wide their register is. */
module Varint {
  import opened Bytes

  /** `value & 0x7F` … */
  function Low(v: nat): (r: nat)
    ensures r < 128
  {
    v % 128
  }

  /** … and `value >> 7`. */
  function High(v: nat): (r: nat)
    ensures v >= 128 ==> 0 < r < v
  {
    v / 128
  }

  lemma Split(v: nat)
    ensures v == Low(v) + 128 * High(v)
  {
  }

  lemma Join(low: nat, high: nat)
    requires low < 128
    ensures Low(low + 128 * high) == low && High(low + 128 * high) == high
  {
  }

  /** What the `do … while(value > 0)` loops emit. */
  function EncodeVarint(v: nat): (s: seq<byte>)
    ensures s != []
  {
    if v < 128 then [v] else [128 + Low(v)] + EncodeVarint(High(v))
  }

  /** The number a string of groups stands for. */
  function Groups(s: seq<byte>): nat {
    if s == [] then 0 else Low(s[0]) + 128 * Groups(s[1..])
  }

  /** Every byte but the last announces another one. */
  predicate Terminated(s: seq<byte>) {
    s != [] && s[|s| - 1] < 128 && forall i :: 0 <= i < |s| - 1 ==> s[i] >= 128
  }

  function Pow128(k: nat): (p: nat)
    ensures p >= 1
  {
    if k == 0 then 1 else 128 * Pow128(k - 1)
  }

  datatype Scanned = Varint(value: nat, next: nat) | Malformed

  /** Where the first byte below 128 at or after `pos` is; the buffer's end if nowhere. */
  function Terminator(buf: seq<byte>, pos: nat): (j: nat)
    requires pos <= |buf|
    ensures pos <= j <= |buf|
    decreases |buf| - pos
  {
    if pos == |buf| || buf[pos] < 128 then pos else Terminator(buf, pos + 1)
  }

  lemma {:induction false} TerminatorIsFirst(buf: seq<byte>, pos: nat)
    requires pos <= |buf|
    ensures var j := Terminator(buf, pos);
            && (forall i :: pos <= i < j ==> buf[i] >= 128)
            && (j < |buf| ==> buf[j] < 128)
    decreases |buf| - pos
  {
    if pos < |buf| && buf[pos] >= 128 { TerminatorIsFirst(buf, pos + 1); }
  }

  /** A reader that takes at most `maxBytes` bytes into a register modulo `modulus`. */
  function ReadVarint(buf: seq<byte>, pos: nat, maxBytes: nat, modulus: int): (r: Scanned)
    requires pos <= |buf| && modulus > 0
    ensures r.Varint? ==> pos < r.next <= |buf| && r.next - pos <= maxBytes && r.value < modulus
  {
    var j := Terminator(buf, pos);
    if j == |buf| || j - pos >= maxBytes then Malformed
    else Varint(Groups(buf[pos..j + 1]) % modulus, j + 1)
  }

  /** The 64-bit reader of PSON tags, the 32-bit reader of message bodies and the reader
      of message sizes on the socket. */
  function ReadVarint64(buf: seq<byte>, pos: nat): Scanned
    requires pos <= |buf|
  { ReadVarint(buf, pos, 10, TWO64) }

  function ReadVarint32(buf: seq<byte>, pos: nat): Scanned
    requires pos <= |buf|
  { ReadVarint(buf, pos, 5, TWO32) }

  function ReadSocketVarint(buf: seq<byte>, pos: nat): Scanned
    requires pos <= |buf|
  { ReadVarint(buf, pos, 4, TWO32) }

  predicate EndsWithin(buf: seq<byte>, pos: nat, n: nat) {
    exists i :: pos <= i < |buf| && i < pos + n && buf[i] < 128
  }

  /** What the readers take: a number that ends within ten bytes, five, and four. */
  lemma ReadersTake(buf: seq<byte>, pos: nat)
    requires pos <= |buf|
    ensures ReadVarint64(buf, pos).Varint? <==> EndsWithin(buf, pos, 10)
    ensures ReadVarint32(buf, pos).Varint? <==> EndsWithin(buf, pos, 5)
    ensures ReadSocketVarint(buf, pos).Varint? <==> EndsWithin(buf, pos, 4)
  {
    TerminatorIsFirst(buf, pos);
    hide Terminator;
  }

  // ---- the writer's form ------------------------------------------------------------

  /** The number of a group and the groups behind it. */
  lemma GroupSplit(b: byte, tail: seq<byte>)
    ensures Groups([b] + tail) == Low(b) + 128 * Groups(tail)
  {
    hide Low;
    assert ([b] + tail)[1..] == tail;
  }

  lemma MoreGroups(v: nat)
    requires v >= 128 && Terminated(EncodeVarint(High(v))) && Groups(EncodeVarint(High(v))) == High(v)
    ensures Terminated(EncodeVarint(v)) && Groups(EncodeVarint(v)) == v
    ensures EncodeVarint(v)[|EncodeVarint(v)| - 1] == EncodeVarint(High(v))[|EncodeVarint(High(v))| - 1]
  {
    var tail, low := EncodeVarint(High(v)), Low(v);
    assert EncodeVarint(v) == [128 + low] + tail by { hide Low, High; }
    hide *;
    Split(v);
    Join(low, 1);
    GroupSplit(128 + low, tail);
    Extended(128 + low, tail);
  }

  lemma Extended(b: byte, tail: seq<byte>)
    requires Terminated(tail) && b >= 128
    ensures Terminated([b] + tail) && ([b] + tail)[|tail|] == tail[|tail| - 1]
  {
    var s := [b] + tail;
    forall i | 0 <= i < |s| - 1 ensures s[i] >= 128 {
      if i > 0 { assert s[i] == tail[i - 1]; }
    }
  }

  lemma SingleGroup(b: byte)
    requires b < 128
    ensures EncodeVarint(b) == [b] && Groups([b]) == b
  {
    Join(b, 0);
    GroupSplit(b, []);
    hide Low, High;
    assert [b] + [] == [b];
  }

  /** What the writer's loop does to a group put in front of a number. */
  lemma EncodeGroup(b: byte, t: nat)
    requires b >= 128 && t > 0
    ensures EncodeVarint(Low(b) + 128 * t) == [b] + EncodeVarint(t)
  {
    var low := b - 128;
    Join(low, 1);
    Join(low, t);
    hide Low, High;
    assert Low(b) == low && Low(low + 128 * t) == low && High(low + 128 * t) == t;
  }

  lemma {:induction false} EncodedIsTerminated(v: nat)
    ensures Terminated(EncodeVarint(v)) && Groups(EncodeVarint(v)) == v
    ensures v > 0 ==> EncodeVarint(v)[|EncodeVarint(v)| - 1] != 0
  {
    if v >= 128 {
      EncodedIsTerminated(High(v));
      MoreGroups(v);
    } else {
      SingleGroup(v);
    }
  }

  /** The writer emits the only terminated form without a superfluous zero group … */
  lemma {:induction false} EncodedIsUnique(s: seq<byte>)
    requires Terminated(s) && (|s| > 1 ==> s[|s| - 1] != 0)
    ensures s == EncodeVarint(Groups(s))
  {
    hide EncodeVarint, Low, Groups;
    if |s| > 1 {
      var tail := s[1..];
      assert s == [s[0]] + tail && Terminated(tail);
      EncodedIsUnique(tail);
      NotZero(tail);
      GroupSplit(s[0], tail);
      EncodeGroup(s[0], Groups(tail));
    } else {
      SingleGroup(s[0]);
      assert s == [s[0]];
    }
  }

  lemma NotZero(s: seq<byte>)
    requires Terminated(s) && s[|s| - 1] != 0 && s == EncodeVarint(Groups(s))
    ensures Groups(s) > 0
  {
    hide Groups;
    assert EncodeVarint(0) == [0];
  }

  /** … and the shortest one of all. */
  lemma {:induction false} EncodedIsShortest(s: seq<byte>)
    requires Terminated(s)
    ensures |EncodeVarint(Groups(s))| <= |s|
  {
    hide Low, High, Groups;
    if |s| > 1 {
      var t := Groups(s[1..]);
      assert s == [s[0]] + s[1..];
      EncodedIsShortest(s[1..]);
      GroupSplit(s[0], s[1..]);
      if t > 0 { EncodeGroup(s[0], t); }
    } else {
      SingleGroup(s[0]);
      assert s == [s[0]];
    }
  }

  lemma HighMonotone(v: nat, w: nat)
    requires v <= w
    ensures High(v) <= High(w)
  {
  }

  lemma {:induction false} LongerForLarger(v: nat, w: nat)
    requires v <= w
    ensures |EncodeVarint(v)| <= |EncodeVarint(w)|
  {
    hide Low, High;
    if v >= 128 {
      HighMonotone(v, w);
      LongerForLarger(High(v), High(w));
    }
  }

  lemma {:induction false} EncodedLength(v: nat, k: nat)
    requires k > 0
    ensures |EncodeVarint(v)| <= k <==> v < Pow128(k)
  {
    hide Low, High;
    if k == 1 {
      assert Pow128(1) == 128 * Pow128(0);
    } else if v >= 128 {
      Split(v);
      EncodedLength(High(v), k - 1);
    } else {
      assert Pow128(k) >= 128;
    }
  }

  lemma {:induction false} GroupsBound(s: seq<byte>)
    ensures Groups(s) < Pow128(|s|)
  {
    hide Low;
    if s != [] { GroupsBound(s[1..]); }
  }

  /** One more group on top: how the readers' loops grow their register. */
  lemma {:induction false} GroupsSnoc(s: seq<byte>, b: byte)
    ensures Groups(s + [b]) == Groups(s) + Low(b) * Pow128(|s|)
  {
    hide Low;
    if s == [] {
      assert [b][1..] == [];
    } else {
      GroupsSnoc(s[1..], b);
      assert (s + [b])[1..] == s[1..] + [b];
      var p := Pow128(|s| - 1);
      assert Low(b) * (128 * p) == 128 * (Low(b) * p);
    }
  }

  /** The readers' registers before the first byte. */
  lemma EmptyRegister()
    ensures Groups([]) == 0 && Pow128(0) == 1
  {
  }

  lemma Sum32(a: nat, b: nat)
    ensures (a % 0x1_0000_0000 + b) % 0x1_0000_0000 == (a + b) % 0x1_0000_0000
  {
  }

  lemma Sum64(a: nat, b: nat)
    ensures (a % 0x1_0000_0000_0000_0000 + b) % 0x1_0000_0000_0000_0000 == (a + b) % 0x1_0000_0000_0000_0000
  {
  }

  lemma SumMod(a: nat, b: nat, modulus: nat)
    requires modulus == TWO32 || modulus == TWO64
    ensures (a % modulus + b) % modulus == (a + b) % modulus
  {
    if modulus == TWO32 { Sum32(a, b); } else { Sum64(a, b); }
  }

  /** `value |= low << bit_pos`: the group meets no set bits of the register, so `|=` adds it, and the
      shift drops what passes its top. */
  function WithGroup(value: nat, low: nat, weight: nat, modulus: nat): (r: nat)
    requires modulus > 0
    ensures r < modulus
  {
    (value + low * weight) % modulus
  }

  /** One turn of a reader's loop: the group at `at`, shifted to its place and added to a
      register of 32 or 64 bits. */
  lemma RegisterGrows(buf: seq<byte>, start: nat, at: nat, modulus: nat)
    requires start <= at < |buf| && (modulus == TWO32 || modulus == TWO64)
    ensures Groups(buf[start..at + 1]) % modulus ==
            WithGroup(Groups(buf[start..at]) % modulus, Low(buf[at]), Pow128(at - start), modulus)
    ensures Pow128(at + 1 - start) == 128 * Pow128(at - start)
  {
    assert Pow128(at + 1 - start) == 128 * Pow128(at - start);
    assert buf[start..at + 1] == buf[start..at] + [buf[at]];
    GroupsSnoc(buf[start..at], buf[at]);
    hide Groups, Pow128, Low;
    SumMod(Groups(buf[start..at]), Low(buf[at]) * Pow128(at - start), modulus);
  }

  /** The loop ends at the first byte that announces no other, if that comes in time … */
  lemma RegisterStops(buf: seq<byte>, start: nat, at: nat, maxBytes: nat, modulus: nat)
    requires start <= at < |buf| && at - start < maxBytes && modulus > 0
    requires (forall i :: start <= i < at ==> buf[i] >= 128) && buf[at] < 128
    ensures ReadVarint(buf, start, maxBytes, modulus) == Varint(Groups(buf[start..at + 1]) % modulus, at + 1)
  {
    hide Groups;
    TerminatorIsFirst(buf, start);
    assert Terminator(buf, start) == at;
  }

  /** … and gives up at the end of the buffer or after too many bytes. */
  lemma RegisterFails(buf: seq<byte>, start: nat, at: nat, maxBytes: nat, modulus: nat)
    requires start <= at <= |buf| && modulus > 0
    requires forall i :: start <= i < at ==> buf[i] >= 128
    requires at == |buf| || at - start >= maxBytes
    ensures ReadVarint(buf, start, maxBytes, modulus) == Malformed
  {
    hide Groups;
    TerminatorIsFirst(buf, start);
    assert Terminator(buf, start) >= at;
  }

  /** What is read from a single byte is below 128. */
  lemma OneByteValue(buf: seq<byte>, pos: nat, maxBytes: nat, modulus: nat)
    requires pos <= |buf| && modulus >= 128
    ensures var r := ReadVarint(buf, pos, maxBytes, modulus); r.Varint? && r.next == pos + 1 ==> r.value < 128
  {
    hide Low;
    if pos < |buf| {
      GroupSplit(buf[pos], []);
      assert buf[pos..pos + 1] == [buf[pos]] == [buf[pos]] + [];
      assert Groups([]) == 0;
    }
  }

  lemma TerminatorOf(buf: seq<byte>, pos: nat, s: seq<byte>)
    requires At(buf, pos, s) && Terminated(s)
    ensures Terminator(buf, pos) == pos + |s| - 1
  {
    TerminatorIsFirst(buf, pos);
    AtSlice(buf, pos, s);
    assert forall k :: pos <= k < pos + |s| ==> buf[k] == s[k - pos];
  }

  lemma Powers()
    ensures Pow128(5) == 0x8_0000_0000 && Pow128(4) == 0x1000_0000 && Pow128(10) == 0x40_0000_0000_0000_0000
    ensures Pow128(3) == 0x20_0000
  {
    assert Pow128(3) == 128 * 128 * 128 by { assert Pow128(1) == 128; }
    assert Pow128(5) == 128 * Pow128(4) && Pow128(4) == 128 * Pow128(3);
    assert Pow128(7) == 128 * Pow128(6) && Pow128(6) == 128 * Pow128(5);
    assert Pow128(9) == 128 * Pow128(8) && Pow128(8) == 128 * Pow128(7);
  }

  // ---- readers against the writer ---------------------------------------------------

  /** Exactly what a reader makes of a written number, wherever it stands. */
  lemma ReadEncoded(buf: seq<byte>, pos: nat, v: nat, maxBytes: nat, modulus: int)
    requires At(buf, pos, EncodeVarint(v)) && maxBytes > 0 && modulus > 0
    ensures ReadVarint(buf, pos, maxBytes, modulus) ==
            if v < Pow128(maxBytes) then Varint(v % modulus, pos + |EncodeVarint(v)|) else Malformed
  {
    hide EncodeVarint, Pow128, Terminator;
    EncodedIsTerminated(v);
    TerminatorOf(buf, pos, EncodeVarint(v));
    AtSlice(buf, pos, EncodeVarint(v));
    EncodedLength(v, maxBytes);
    hide At, Terminated;
  }

  /** The 64-bit reader inverts the writer on its whole range. */
  lemma ReadEncoded64(buf: seq<byte>, pos: nat, v: u64)
    requires At(buf, pos, EncodeVarint(v))
    ensures ReadVarint64(buf, pos) == Varint(v, pos + |EncodeVarint(v)|)
  {
    Powers();
    ReadEncoded(buf, pos, v, 10, TWO64);
  }

  /** The 32-bit reader takes what is written in 35 bits and keeps the low 32 of them. */
  lemma ReadEncoded32(buf: seq<byte>, pos: nat, v: nat)
    requires At(buf, pos, EncodeVarint(v))
    ensures ReadVarint32(buf, pos) ==
            if v < 0x8_0000_0000 then Varint(v % TWO32, pos + |EncodeVarint(v)|) else Malformed
  {
    Powers();
    ReadEncoded(buf, pos, v, 5, TWO32);
  }

  /** The socket's reader takes what is written in 28 bits, unchanged. */
  lemma ReadEncodedSocket(buf: seq<byte>, pos: nat, v: nat)
    requires At(buf, pos, EncodeVarint(v))
    ensures ReadSocketVarint(buf, pos) ==
            if v < 0x1000_0000 then Varint(v, pos + |EncodeVarint(v)|) else Malformed
  {
    Powers();
    ReadEncoded(buf, pos, v, 4, TWO32);
  }

  /** On every byte string the socket's reader accepts, all three readers agree. */
  lemma ReadersAgree(buf: seq<byte>, pos: nat)
    requires pos <= |buf| && ReadSocketVarint(buf, pos).Varint?
    ensures ReadVarint32(buf, pos) == ReadSocketVarint(buf, pos) == ReadVarint64(buf, pos)
  {
    Powers();
    var j := Terminator(buf, pos);
    var s := buf[pos..j + 1];
    GroupsBound(s);
    Pow128Monotone(|s|, 4);
  }

  lemma {:induction false} Pow128Monotone(j: nat, k: nat)
    requires j <= k
    ensures Pow128(j) <= Pow128(k)
    decreases k
  {
    if j < k { Pow128Monotone(j, k - 1); }
  }

  /** Writing again what a reader read takes no more bytes than were read. */
  lemma RewrittenVarintFits(buf: seq<byte>, pos: nat, maxBytes: nat, modulus: int)
    requires pos <= |buf| && modulus > 0
    requires ReadVarint(buf, pos, maxBytes, modulus).Varint?
    ensures var r := ReadVarint(buf, pos, maxBytes, modulus);
            |EncodeVarint(r.value)| <= r.next - pos
  {
    var j := Terminator(buf, pos);
    var s := buf[pos..j + 1];
    TerminatorIsFirst(buf, pos);
    assert Terminated(s);
    EncodedIsShortest(s);
    ModAtMost(Groups(s), modulus);
    LongerForLarger(Groups(s) % modulus, Groups(s));
  }

  lemma ModAtMost(n: nat, m: int)
    requires m > 0
    ensures 0 <= n % m <= n
  {
    if n >= m { assert n % m < m; }
  }
}

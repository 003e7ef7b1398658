/**
 * The protocol's VarInt: a 32-bit integer written 7 bits per byte, least
 * significant group first, the high bit of each byte saying that another
 * byte follows.
 *
 * Values are 32-bit patterns (`bv32`), as the JavaScript bitwise operators
 * see them; module `Int32` gives the number where the source does
 * arithmetic on a decoded value.
 */
module VarInt {
  import opened Wrappers

  /** A decoded value together with the cursor just past what was read
      (the `{result, length}` pairs of the source). */
  datatype Read<T> = Read(value: T, next: int)

  /** `buffer[k]` in the source: outside the buffer it is `undefined`,
      which every bitwise operator reads as 0. */
  function ByteAt(buf: seq<bv8>, k: int): bv8
  {
    if 0 <= k < |buf| then buf[k] else 0
  }

  /** The continuation bit. */
  predicate Continues(b: bv8)
  {
    b & 0x80 != 0
  }

  /** The contribution of the `k`-th byte read: its low 7 bits shifted by
      `7 * k`, the shift count taken modulo 32 as JavaScript's `<<` does. */
  function Group(b: bv8, k: nat): bv32
  {
    ((b & 0x7F) as bv32) << ShiftCount(k)
  }

  /** The shift count of the `k`-th byte, `7 * k` as `<<` takes it: only
      its low five bits count, so the sixth byte is shifted by 3, not 35.
      Computed step by step on the 32-bit pattern. */
  function ShiftCount(k: nat): (s: bv32)
    ensures s < 32
  {
    if k == 0 then 0 else (ShiftCount(k - 1) + 7) % 32
  }

  /** The shift count is `7 * k` modulo 32. */
  lemma {:induction false} ShiftValue(k: nat)
    ensures ShiftCount(k) as int == (7 * k) % 32
  {
    if k > 0 {
      ShiftValue(k - 1);
      AddSeven(ShiftCount(k - 1));
      ModStep(7 * (k - 1));
      assert 7 * k == 7 * (k - 1) + 7;
    }
  }

  /** One step of the shift count, as a number. */
  lemma AddSeven(p: bv32)
    requires p < 32
    ensures ((p + 7) % 32) as int == (p as int + 7) % 32
  {
    if p < 25 {
      assert (p + 7) % 32 == p + 7;
    } else {
      assert (p + 7) % 32 == p - 25;
    }
  }

  /** Adding 7 commutes with reducing modulo 32. */
  lemma ModStep(m: nat)
    ensures (m % 32 + 7) % 32 == (m + 7) % 32
  {
    var q, r := m / 32, m % 32;
    assert m + 7 == 32 * q + (r + 7);
    if r + 7 >= 32 {
      assert m + 7 == 32 * (q + 1) + (r + 7 - 32);
    }
  }

  /** How many bytes the decoder reads from `at`: up to and including the
      first byte whose continuation bit is clear; a read past the end of the
      buffer yields 0 and so ends the value. */
  function Size(buf: seq<bv8>, at: int): (n: nat)
    ensures 1 <= n
    ensures at >= |buf| || at < 0 ==> n == 1
    decreases |buf| - at
  {
    if 0 <= at < |buf| && Continues(buf[at]) then 1 + Size(buf, at + 1) else 1
  }

  /** The OR of the first `n` groups read from `at`. */
  function Accumulate(buf: seq<bv8>, at: int, n: nat): bv32
  {
    if n == 0 then 0 else Accumulate(buf, at, n - 1) | Group(ByteAt(buf, at + n - 1), n - 1)
  }

  /** What `VarInt.decode(buf, at)` returns. */
  function ReadVarInt(buf: seq<bv8>, at: int): Read<bv32>
  {
    Read(Accumulate(buf, at, Size(buf, at)), at + Size(buf, at))
  }

  /** `VarInt.decode`: the do-while loop of the source. */
  method Decode(buf: seq<bv8>, index: int) returns (result: bv32, length: int)
    ensures length == index + Size(buf, index) > index
    ensures result == Accumulate(buf, index, Size(buf, index))
    ensures Read(result, length) == ReadVarInt(buf, index)
  {
    var numRead: nat := 0;
    result := 0;
    while true
      invariant Size(buf, index) == numRead + Size(buf, index + numRead)
      invariant result == Accumulate(buf, index, numRead)
      decreases |buf| - (index + numRead)
    {
      var read := ByteAt(buf, index + numRead);
      result := result | Group(read, numRead);
      numRead := numRead + 1;
      if !Continues(read) {
        break;
      }
    }
    length := numRead + index;
  }

  /** The decoder stops exactly at the first byte whose continuation bit is
      clear: every earlier byte read has it set. */
  lemma {:induction false} SizeStops(buf: seq<bv8>, at: int)
    ensures forall j :: at <= j < at + Size(buf, at) - 1 ==> Continues(ByteAt(buf, j))
    ensures !Continues(ByteAt(buf, at + Size(buf, at) - 1))
    decreases |buf| - at
  {
    if 0 <= at < |buf| && Continues(buf[at]) {
      SizeStops(buf, at + 1);
    }
  }

  /** Conversely, any run of continuing bytes closed by a clear one is read
      whole: the decoder's length is determined by the bytes alone. */
  lemma {:induction false} SizeIs(buf: seq<bv8>, at: int, n: nat)
    requires 1 <= n
    requires forall j :: at <= j < at + n - 1 ==> Continues(ByteAt(buf, j))
    requires !Continues(ByteAt(buf, at + n - 1))
    ensures Size(buf, at) == n
    decreases n
  {
    if n > 1 {
      assert Continues(ByteAt(buf, at));
      SizeIs(buf, at + 1, n - 1);
    }
  }

  /** The accumulated value depends only on the `n` bytes read. */
  lemma {:induction false} AccumulateLocal(b1: seq<bv8>, at1: int, b2: seq<bv8>, at2: int, n: nat)
    requires forall j :: at1 <= j < at1 + n ==> ByteAt(b1, j) == ByteAt(b2, j - at1 + at2)
    ensures Accumulate(b1, at1, n) == Accumulate(b2, at2, n)
  {
    if n > 0 {
      AccumulateLocal(b1, at1, b2, at2, n - 1);
      assert ByteAt(b1, at1 + n - 1) == ByteAt(b2, at2 + n - 1);
    }
  }

  /** What `VarInt.encode(value)` is evidently meant to return: one byte per
      7-bit group, emitted while the remaining value is non-zero, every byte
      but the last carrying the continuation bit. */
  function Encoding(v: bv32): (r: seq<bv8>)
    decreases v
  {
    var low := (v & 0x7F) as bv8;
    var rest := v >> 7;
    if rest == 0 then [low] else [low | 0x80] + Encoding(rest)
  }

  /** `VarInt.encode` with line 182 appending `temp` as intended. The
      unsigned shift `>>>=` makes every 32-bit pattern, negatives included,
      run out of bits. */
  method Encode(x: bv32) returns (buffer: seq<bv8>)
    ensures buffer == Encoding(x)
  {
    var value := x;
    buffer := [];
    while true
      invariant buffer + Encoding(value) == Encoding(x)
      decreases value
    {
      ghost var rest := buffer + Encoding(value);
      var temp := (value & 0x7F) as bv8;
      value := value >> 7;
      if value != 0 {
        temp := temp | 0x80;
      }
      buffer := buffer + [temp];
      if value == 0 {
        assert rest == buffer;
        break;
      }
      assert rest == buffer + Encoding(value);
    }
  }

  /** `VarInt.encode` as written: line 182 calls `buffer.concat`, but a
      `Buffer` has no `concat` method of its own (only the static
      `Buffer.concat` exists), so the first turn of the loop throws a
      `TypeError`; and the static form would return a new buffer that is
      dropped, so no byte would be kept either way. */
  function EncodeAsWritten(x: bv32): Outcome<seq<bv8>>
  {
    Raised
  }

  /** The number of bytes in an encoding, by magnitude. */
  function EncodedLength(v: bv32): (n: nat)
  {
    if v < 0x80 then 1
    else if v < 0x4000 then 2
    else if v < 0x20_0000 then 3
    else if v < 0x1000_0000 then 4
    else 5
  }

  /** The 7 bits of `v` starting at bit `s`, as a byte. */
  function Bits7(v: bv32, s: bv32): bv8
    requires s <= 32
  {
    ((v >> s) & 0x7F) as bv8
  }

  /*
   * The bit-level facts below are stated for each encoding length in turn,
   * with constant shift counts and masks, and each in a lemma of its own:
   * that keeps every proof obligation small.
   */

  /** One turn of the encoder's loop. */
  lemma EncodingStep(v: bv32)
    ensures v >> 7 == 0 ==> Encoding(v) == [Bits7(v, 0)]
    ensures v >> 7 != 0 ==> Encoding(v) == [Bits7(v, 0) | 0x80] + Encoding(v >> 7)
  {
  }

  /** The groups of `v >> 7` are the groups of `v`, one place down. */
  lemma ShiftedGroups(v: bv32)
    ensures Bits7(v >> 7, 0) == Bits7(v, 7)
    ensures Bits7(v >> 7, 7) == Bits7(v, 14)
    ensures Bits7(v >> 7, 14) == Bits7(v, 21)
    ensures Bits7(v >> 7, 21) == Bits7(v, 28)
  {
  }

  /** An encoding of each length, byte by byte: group `k` of the value in
      byte `k`, the continuation bit on every byte but the last. */
  lemma Encoding1(v: bv32)
    requires v < 0x80
    ensures Encoding(v) == [Bits7(v, 0)]
  {
    EncodingStep(v);
  }

  lemma EncodingTail2(v: bv32)
    requires 0x80 <= v < 0x4000
    ensures Encoding(v >> 7) == [Bits7(v, 7)]
  {
    var w := v >> 7;
    assert w < 0x80;
    Encoding1(w);
    ShiftedGroups(v);
  }

  lemma Encoding2(v: bv32)
    requires 0x80 <= v < 0x4000
    ensures Encoding(v) == [Bits7(v, 0) | 0x80, Bits7(v, 7)]
  {
    EncodingTail2(v);
    EncodingStep(v);
  }

  lemma EncodingTail3(v: bv32)
    requires 0x4000 <= v < 0x20_0000
    ensures Encoding(v >> 7) == [Bits7(v, 7) | 0x80, Bits7(v, 14)]
  {
    var w := v >> 7;
    assert 0x80 <= w < 0x4000;
    Encoding2(w);
    ShiftedGroups(v);
  }

  lemma Encoding3(v: bv32)
    requires 0x4000 <= v < 0x20_0000
    ensures Encoding(v) == [Bits7(v, 0) | 0x80, Bits7(v, 7) | 0x80, Bits7(v, 14)]
  {
    EncodingTail3(v);
    EncodingStep(v);
  }

  lemma EncodingTail4(v: bv32)
    requires 0x20_0000 <= v < 0x1000_0000
    ensures Encoding(v >> 7) == [Bits7(v, 7) | 0x80, Bits7(v, 14) | 0x80, Bits7(v, 21)]
  {
    var w := v >> 7;
    assert 0x4000 <= w < 0x20_0000;
    Encoding3(w);
    ShiftedGroups(v);
  }

  lemma Encoding4(v: bv32)
    requires 0x20_0000 <= v < 0x1000_0000
    ensures Encoding(v) == [Bits7(v, 0) | 0x80, Bits7(v, 7) | 0x80, Bits7(v, 14) | 0x80, Bits7(v, 21)]
  {
    EncodingTail4(v);
    EncodingStep(v);
  }

  lemma EncodingTail5(v: bv32)
    requires 0x1000_0000 <= v
    ensures Encoding(v >> 7) == [Bits7(v, 7) | 0x80, Bits7(v, 14) | 0x80, Bits7(v, 21) | 0x80, Bits7(v, 28)]
  {
    var w := v >> 7;
    assert 0x20_0000 <= w < 0x1000_0000;
    Encoding4(w);
    ShiftedGroups(v);
  }

  lemma Encoding5(v: bv32)
    requires 0x1000_0000 <= v
    ensures Encoding(v) == [Bits7(v, 0) | 0x80, Bits7(v, 7) | 0x80, Bits7(v, 14) | 0x80, Bits7(v, 21) | 0x80, Bits7(v, 28)]
  {
    EncodingTail5(v);
    EncodingStep(v);
  }

  /** Each byte of an encoding, read back in its place, gives its bits of
      the value, whether or not it carries the continuation bit. */
  lemma Placed0(v: bv32)
    ensures Group(Bits7(v, 0), 0) == v & 0x7F
    ensures Group(Bits7(v, 0) | 0x80, 0) == v & 0x7F
  {
    assert ShiftCount(0) == 0;
  }

  lemma Placed1(v: bv32)
    ensures Group(Bits7(v, 7), 1) == v & 0x3F80
    ensures Group(Bits7(v, 7) | 0x80, 1) == v & 0x3F80
  {
    assert ShiftCount(1) == 7;
  }

  lemma Placed2(v: bv32)
    ensures Group(Bits7(v, 14), 2) == v & 0x1F_C000
    ensures Group(Bits7(v, 14) | 0x80, 2) == v & 0x1F_C000
  {
    assert ShiftCount(2) == 14;
  }

  lemma Placed3(v: bv32)
    ensures Group(Bits7(v, 21), 3) == v & 0xFE0_0000
    ensures Group(Bits7(v, 21) | 0x80, 3) == v & 0xFE0_0000
  {
    assert ShiftCount(3) == 21;
  }

  lemma Placed4(v: bv32)
    ensures Group(Bits7(v, 28), 4) == v & 0xF000_0000
  {
    assert ShiftCount(4) == 28;
  }

  /** The decoder's accumulator over the first `n` bytes, when each holds
      its group of `v`: the low `7 * n` bits of `v`. */
  lemma Accumulate1(e: seq<bv8>, v: bv32)
    requires |e| >= 1
    requires Group(e[0], 0) == v & 0x7F
    ensures Accumulate(e, 0, 1) == v & 0x7F
  {
  }

  lemma Accumulate2(e: seq<bv8>, v: bv32)
    requires |e| >= 2
    requires Group(e[0], 0) == v & 0x7F && Group(e[1], 1) == v & 0x3F80
    ensures Accumulate(e, 0, 2) == v & 0x3FFF
  {
    Accumulate1(e, v);
  }

  lemma Accumulate3(e: seq<bv8>, v: bv32)
    requires |e| >= 3
    requires Group(e[0], 0) == v & 0x7F && Group(e[1], 1) == v & 0x3F80 && Group(e[2], 2) == v & 0x1F_C000
    ensures Accumulate(e, 0, 3) == v & 0x1F_FFFF
  {
    Accumulate2(e, v);
  }

  lemma Accumulate4(e: seq<bv8>, v: bv32)
    requires |e| >= 4
    requires Group(e[0], 0) == v & 0x7F && Group(e[1], 1) == v & 0x3F80 && Group(e[2], 2) == v & 0x1F_C000 && Group(e[3], 3) == v & 0xFE0_0000
    ensures Accumulate(e, 0, 4) == v & 0xFFF_FFFF
  {
    Accumulate3(e, v);
  }

  lemma Accumulate5(e: seq<bv8>, v: bv32)
    requires |e| >= 5
    requires Group(e[0], 0) == v & 0x7F && Group(e[1], 1) == v & 0x3F80 && Group(e[2], 2) == v & 0x1F_C000 && Group(e[3], 3) == v & 0xFE0_0000 && Group(e[4], 4) == v & 0xF000_0000
    ensures Accumulate(e, 0, 5) == v
  {
    Accumulate4(e, v);
  }

  /** Continuation bits of the bytes an encoding is made of. */
  lemma ContinuationBits(v: bv32)
    ensures Continues(Bits7(v, 0) | 0x80) && !Continues(Bits7(v, 0))
    ensures Continues(Bits7(v, 7) | 0x80) && !Continues(Bits7(v, 7))
    ensures Continues(Bits7(v, 14) | 0x80) && !Continues(Bits7(v, 14))
    ensures Continues(Bits7(v, 21) | 0x80) && !Continues(Bits7(v, 21))
    ensures !Continues(Bits7(v, 28))
  {
  }

  /** An encoding of each length: its continuation bits, and the decoder's
      accumulator over it. */
  lemma Decode1(v: bv32)
    requires v < 0x80
    ensures |Encoding(v)| == 1
    ensures !Continues(Encoding(v)[0])
    ensures Accumulate(Encoding(v), 0, 1) == v
  {
    Encoding1(v);
    ContinuationBits(v);
    Placed0(v);
    Accumulate1(Encoding(v), v);
  }

  lemma Decode2(v: bv32)
    requires 0x80 <= v < 0x4000
    ensures |Encoding(v)| == 2
    ensures forall k :: 0 <= k < 1 ==> Continues(Encoding(v)[k])
    ensures !Continues(Encoding(v)[1])
    ensures Accumulate(Encoding(v), 0, 2) == v
  {
    Encoding2(v);
    ContinuationBits(v);
    Placed0(v);
    Placed1(v);
    Accumulate2(Encoding(v), v);
  }

  lemma Decode3(v: bv32)
    requires 0x4000 <= v < 0x20_0000
    ensures |Encoding(v)| == 3
    ensures forall k :: 0 <= k < 2 ==> Continues(Encoding(v)[k])
    ensures !Continues(Encoding(v)[2])
    ensures Accumulate(Encoding(v), 0, 3) == v
  {
    Encoding3(v);
    ContinuationBits(v);
    Placed0(v);
    Placed1(v);
    Placed2(v);
    Accumulate3(Encoding(v), v);
  }

  lemma Decode4(v: bv32)
    requires 0x20_0000 <= v < 0x1000_0000
    ensures |Encoding(v)| == 4
    ensures forall k :: 0 <= k < 3 ==> Continues(Encoding(v)[k])
    ensures !Continues(Encoding(v)[3])
    ensures Accumulate(Encoding(v), 0, 4) == v
  {
    Encoding4(v);
    ContinuationBits(v);
    Placed0(v);
    Placed1(v);
    Placed2(v);
    Placed3(v);
    Accumulate4(Encoding(v), v);
  }

  lemma Decode5(v: bv32)
    requires 0x1000_0000 <= v
    ensures |Encoding(v)| == 5
    ensures forall k :: 0 <= k < 4 ==> Continues(Encoding(v)[k])
    ensures !Continues(Encoding(v)[4])
    ensures Accumulate(Encoding(v), 0, 5) == v
  {
    Encoding5(v);
    ContinuationBits(v);
    Placed0(v);
    Placed1(v);
    Placed2(v);
    Placed3(v);
    Placed4(v);
    Accumulate5(Encoding(v), v);
  }

  /** An encoding has between one and five bytes, as many as the value's
      magnitude needs; every byte but the last carries the continuation bit
      and the last does not; and the decoder's groups, put back together,
      give the value. */
  lemma EncodingShape(v: bv32)
    ensures |Encoding(v)| == EncodedLength(v)
    ensures 1 <= |Encoding(v)| <= 5
    ensures forall k :: 0 <= k < |Encoding(v)| - 1 ==> Continues(Encoding(v)[k])
    ensures !Continues(Encoding(v)[|Encoding(v)| - 1])
    ensures Accumulate(Encoding(v), 0, |Encoding(v)|) == v
  {
    if v < 0x80 {
      Decode1(v);
    } else if v < 0x4000 {
      Decode2(v);
    } else if v < 0x20_0000 {
      Decode3(v);
    } else if v < 0x1000_0000 {
      Decode4(v);
    } else {
      Decode5(v);
    }
  }

  /** Round trip: decoding an encoding that sits anywhere in a buffer gives
      the value back and leaves the cursor just past the encoding. */
  lemma RoundTrip(pre: seq<bv8>, v: bv32, post: seq<bv8>)
    ensures ReadVarInt(pre + Encoding(v) + post, |pre|) == Read(v, |pre| + |Encoding(v)|)
  {
    var e := Encoding(v);
    var buf := pre + e + post;
    EncodingShape(v);
    forall j | |pre| <= j < |pre| + |e|
      ensures ByteAt(buf, j) == ByteAt(e, j - |pre| + 0) && ByteAt(buf, j) == e[j - |pre|]
    {
      assert buf[j] == e[j - |pre|];
    }
    SizeIs(buf, |pre|, |e|);
    AccumulateLocal(buf, |pre|, e, 0, |e|);
  }

  /** The examples of the protocol's documentation, and the longest
      encoding. */
  lemma KnownEncodings()
    ensures Encoding(0) == [0x00]
    ensures Encoding(127) == [0x7F]
    ensures Encoding(128) == [0x80, 0x01]
    ensures Encoding(25565) == [0xDD, 0xC7, 0x01]
    ensures Encoding(0xFFFF_FFFF) == [0xFF, 0xFF, 0xFF, 0xFF, 0x0F]
  {
    assert Encoding(0xF) == [0x0F];
    assert Encoding(0x7FF) == [0xFF, 0x0F];
    assert Encoding(0x3_FFFF) == [0xFF, 0xFF, 0x0F];
    assert Encoding(0x1FF_FFFF) == [0xFF, 0xFF, 0xFF, 0x0F];
  }

  /** The encoder as written never yields a buffer, so no value reaches
      the wire; the intended encoding of every value is a buffer the decoder
      reads back. */
  lemma AsWrittenEncodingLoses(x: bv32)
    ensures EncodeAsWritten(x) == Raised
    ensures EncodeAsWritten(x) != Returned(Encoding(x))
    ensures ReadVarInt(Encoding(x), 0) == Read(x, |Encoding(x)|)
  {
    RoundTrip([], x, []);
    assert [] + Encoding(x) + [] == Encoding(x);
  }
}

/**
 * `ServerString`: the protocol's string, a VarInt byte count followed by
 * that many bytes of UTF-8. Text is kept as its UTF-8 bytes; decoding
 * them to characters is not part of this model.
 */
module ServerString {
  import opened Wrappers
  import opened Int32
  import opened VarInt

  /** `buffer.toString('utf-8', start, end)` on the bytes: a start before 0
      reads from 0, an end past the buffer stops at its end, and an empty
      or inverted range gives nothing. */
  function Slice(buf: seq<bv8>, start: int, end: int): (r: seq<bv8>)
    ensures |r| <= |buf|
    ensures 0 <= start <= end <= |buf| ==> r == buf[start..end]
    ensures 0 <= start <= |buf| <= end ==> r == buf[start..]
    ensures start < 0 && 0 <= end <= |buf| ==> r == buf[..end]
    ensures start < 0 && |buf| <= end ==> r == buf
    ensures end <= start || |buf| <= start || end <= 0 ==> r == []
  {
    var s := if start <= 0 then 0 else start;
    var e := if end > |buf| then |buf| else end;
    if s >= |buf| || e <= s then [] else buf[s..e]
  }

  /** `ServerString.decode(buffer, index)`: the VarInt at `index` gives the
      length, read as a signed 32-bit number; the string is that many bytes
      after it, and the cursor moves past them whether or not the buffer
      holds them. */
  function Decode(buf: seq<bv8>, index: int): Read<seq<bv8>>
  {
    var prefix := ReadVarInt(buf, index);
    var length := ToInt32(prefix.value);
    Read(Slice(buf, prefix.next, prefix.next + length), prefix.next + length)
  }

  /** What `Decode` reads: the declared number of bytes after the length
      prefix, cut short where the buffer ends, nothing for a length of 0 or
      less, and a cursor past the declared length in every case. */
  lemma DecodeReads(buf: seq<bv8>, index: int)
    ensures var prefix := ReadVarInt(buf, index);
            var length := ToInt32(prefix.value);
            var r := Decode(buf, index);
            && r.next == prefix.next + length
            && prefix.next > index
            && (0 <= index && 0 <= length && prefix.next + length <= |buf| ==>
                 r.value == buf[prefix.next..prefix.next + length])
            && (0 <= index && prefix.next <= |buf| < prefix.next + length ==>
                 r.value == buf[prefix.next..])
            && (length <= 0 || |buf| <= prefix.next ==> r.value == [])
            && |r.value| <= |buf|
  {
  }

  /** `ServerString.encode` as evidently intended: the VarInt byte count of
      the UTF-8 text, then the text. */
  function Encode(utf8: seq<bv8>): seq<bv8>
  {
    Encoding(ToBv32(|utf8|)) + utf8
  }

  /** The intended encoding is a length prefix of one to five bytes
      followed by the UTF-8 bytes themselves. */
  lemma EncodeLayout(utf8: seq<bv8>)
    ensures 1 <= |Encode(utf8)| - |utf8| <= 5
    ensures Encode(utf8)[|Encode(utf8)| - |utf8|..] == utf8
  {
    EncodingShape(ToBv32(|utf8|));
  }

  /** Round trip: a string encoded anywhere in a buffer decodes to its
      bytes, with the cursor just past it, for any text shorter than 2^31
      bytes (a longer one has a negative length prefix). */
  lemma {:induction false} RoundTrip(pre: seq<bv8>, utf8: seq<bv8>, post: seq<bv8>)
    requires |utf8| < 0x8000_0000
    ensures Decode(pre + Encode(utf8) + post, |pre|) == Read(utf8, |pre| + |Encode(utf8)|)
  {
    var n := ToBv32(|utf8|);
    var e := Encoding(n);
    var buf := pre + Encode(utf8) + post;
    var start := |pre| + |e|;
    assert buf == pre + e + (utf8 + post);
    assert ReadVarInt(buf, |pre|) == Read(n, start) by {
      VarInt.RoundTrip(pre, n, utf8 + post);
    }
    assert ToInt32(n) == |utf8| by {
      ToBv32Inverse(|utf8|);
    }
    assert buf[start..start + |utf8|] == utf8;
    DecodeAfterPrefix(buf, |pre|, n, start);
  }

  /** `Decode` once the length prefix is known. */
  lemma DecodeAfterPrefix(buf: seq<bv8>, index: int, length: bv32, next: int)
    requires ReadVarInt(buf, index) == Read(length, next)
    ensures Decode(buf, index) == Read(Slice(buf, next, next + ToInt32(length)), next + ToInt32(length))
  {
  }

  /** `ServerString.encode` as written: `VarInt.encode` throws first (see
      `VarInt.EncodeAsWritten`); `Buffer.concat` is then given a buffer
      where it needs an array of buffers, which throws too; and had it
      returned, nothing would be returned, for line 206 has no `return`. */
  function EncodeAsWritten(text: seq<char>, utf8: seq<bv8>): Outcome<seq<bv8>>
  {
    Raised
  }

  /** The prefix line 206 computes from `string.length` in place of the
      byte count. `|text|` counts characters, which equals JavaScript's
      count of UTF-16 code units for text in the Basic Multilingual Plane,
      such as "é"; a character outside it counts 2 there and 1 here. */
  function PrefixByCharCount(text: seq<char>, utf8: seq<bv8>): seq<bv8>
  {
    Encoding(ToBv32(|text|)) + utf8
  }

  /** As written, encoding a string never yields bytes. */
  lemma AsWrittenRaises(text: seq<char>, utf8: seq<bv8>)
    ensures EncodeAsWritten(text, utf8) == Raised
    ensures EncodeAsWritten(text, utf8) != Returned(Encode(utf8))
  {
  }

  /** With a character count for a prefix, "é" (one code unit, two UTF-8
      bytes) decodes to half a character, and the cursor stops inside the
      string, where the intended encoding reads back whole. */
  lemma CharCountPrefixSplits()
    ensures Decode(PrefixByCharCount("é", [0xC3, 0xA9]), 0).value == [0xC3]
    ensures Decode(PrefixByCharCount("é", [0xC3, 0xA9]), 0).next < |PrefixByCharCount("é", [0xC3, 0xA9])|
    ensures Decode(Encode([0xC3, 0xA9]), 0).value == [0xC3, 0xA9]
  {
    assert PrefixByCharCount("é", [0xC3, 0xA9]) == [] + Encode([0xC3]) + [0xA9];
    RoundTrip([], [0xC3], [0xA9]);
    assert Encode([0xC3, 0xA9]) == [] + Encode([0xC3, 0xA9]) + [];
    RoundTrip([], [0xC3, 0xA9], []);
  }
}

/** WebSocket frames (RFC 6455, sections 5.2 and 5.3): the server's writer, and the reader that
    also accepts the masked frames of clients. */
module WsFrames {
  import opened Sequences
  import opened Text
  import opened Bytes

  datatype Frame = Frame(opcode: byte, payload: seq<byte>)

  // ----- Masking -----

  function Bit(a: nat, b: nat): nat { if a % 2 == b % 2 then 0 else 1 }

  /** Exclusive or of the low `n` bits. */
  function XorBits(a: nat, b: nat, n: nat): nat {
    if n == 0 then 0 else Bit(a, b) + 2 * XorBits(a / 2, b / 2, n - 1)
  }

  function Pow2(n: nat): nat { if n == 0 then 1 else 2 * Pow2(n - 1) }

  lemma {:induction false} XorBitsBelow(a: nat, b: nat, n: nat)
    ensures XorBits(a, b, n) < Pow2(n)
  {
    if n > 0 {
      XorBitsBelow(a / 2, b / 2, n - 1);
    }
  }

  lemma {:induction false} XorBitsTwice(a: nat, k: nat, n: nat)
    requires a < Pow2(n)
    ensures XorBits(XorBits(a, k, n), k, n) == a
  {
    if n > 0 {
      var x := XorBits(a / 2, k / 2, n - 1);
      assert (Bit(a, k) + 2 * x) % 2 == Bit(a, k) && (Bit(a, k) + 2 * x) / 2 == x;
      XorBitsTwice(a / 2, k / 2, n - 1);
    }
  }

  lemma EightBits()
    ensures Pow2(8) == 256
  {
    assert Pow2(4) == 16;
  }

  function Xor(a: byte, b: byte): byte {
    EightBits();
    XorBitsBelow(a, b, 8);
    XorBits(a, b, 8)
  }

  lemma XorTwice(a: byte, k: byte)
    ensures Xor(Xor(a, k), k) == a
  {
    EightBits();
    XorBitsTwice(a, k, 8);
  }

  function BitAt(n: nat, i: nat): nat { if i == 0 then n % 2 else BitAt(n / 2, i - 1) }

  lemma Halves(bit: nat, x: nat)
    requires bit < 2
    ensures (bit + 2 * x) % 2 == bit && (bit + 2 * x) / 2 == x
  {
  }

  lemma {:induction false} XorBitsAt(a: nat, b: nat, n: nat, i: nat)
    requires i < n
    ensures BitAt(XorBits(a, b, n), i) == 1 <==> BitAt(a, i) != BitAt(b, i)
  {
    Halves(Bit(a, b), XorBits(a / 2, b / 2, n - 1));
    if i > 0 {
      XorBitsAt(a / 2, b / 2, n - 1, i - 1);
    }
  }

  /** A masked byte has exactly the bits in which byte and key differ. */
  lemma XorAt(a: byte, k: byte, i: nat)
    requires i < 8
    ensures BitAt(Xor(a, k), i) == 1 <==> BitAt(a, i) != BitAt(k, i)
  {
    XorBitsAt(a, k, 8, i);
  }

  /** The payload masked with a four-byte key. */
  function Masked(payload: seq<byte>, key: seq<byte>): (m: seq<byte>)
    requires |key| == 4
    ensures |m| == |payload|
  {
    seq(|payload|, i requires 0 <= i < |payload| => Xor(payload[i], key[i % 4]))
  }

  /** Masking twice with one key gives the payload back. */
  lemma MaskedTwice(payload: seq<byte>, key: seq<byte>)
    requires |key| == 4
    ensures Masked(Masked(payload, key), key) == payload
  {
    forall i | 0 <= i < |payload| ensures Masked(Masked(payload, key), key)[i] == payload[i] {
      XorTwice(payload[i], key[i % 4]);
    }
  }

  /** The unmasking loop, in place. */
  method UnmaskInPlace(payload: array<byte>, key: seq<byte>)
    requires |key| == 4
    modifies payload
    ensures payload[..] == Masked(old(payload[..]), key)
  {
    ghost var before := payload[..];
    for i := 0 to payload.Length
      invariant forall k :: 0 <= k < i ==> payload[k] == Masked(before, key)[k]
      invariant forall k :: i <= k < payload.Length ==> payload[k] == before[k]
    {
      payload[i] := Xor(payload[i], key[i % 4]);
    }
    assert payload[..] == Masked(before, key);
  }

  // ----- Numbers -----

  /** Big-endian bytes. */
  function ToBigEndian(n: nat, size: nat): (bs: seq<byte>)
    ensures |bs| == size
  {
    if size == 0 then [] else ToBigEndian(n / 256, size - 1) + [n % 256]
  }

  function FromBigEndian(bs: seq<byte>): nat {
    if bs == [] then 0 else 256 * FromBigEndian(bs[..|bs| - 1]) + bs[|bs| - 1]
  }

  function Pow256(n: nat): nat { if n == 0 then 1 else 256 * Pow256(n - 1) }

  lemma {:induction false} BigEndianRoundTrip(n: nat, size: nat)
    requires n < Pow256(size)
    ensures FromBigEndian(ToBigEndian(n, size)) == n
  {
    if size > 0 {
      BigEndianRoundTrip(n / 256, size - 1);
      assert ToBigEndian(n, size)[..size - 1] == ToBigEndian(n / 256, size - 1);
    }
  }

  /** The first byte weighs most. */
  lemma {:induction false} BigEndianFirst(bs: seq<byte>)
    requires bs != []
    ensures FromBigEndian(bs) == bs[0] * Pow256(|bs| - 1) + FromBigEndian(bs[1..])
  {
    var n := |bs| - 1;
    if n > 0 {
      BigEndianFirst(bs[..n]);
      assert bs[..n][1..] == bs[1..][..n - 1];
      Weigh(bs[0], Pow256(n - 1), FromBigEndian(bs[1..][..n - 1]), bs[n]);
    }
  }

  lemma Weigh(first: nat, p: nat, middle: nat, last: nat)
    ensures 256 * (first * p + middle) + last == first * (256 * p) + (256 * middle + last)
  {
  }

  lemma WordSizes()
    ensures Pow256(2) == 0x1_0000 && Pow256(8) == 0x1_0000_0000_0000_0000
  {
    assert Pow256(4) == 0x1_0000_0000;
    assert Pow256(6) == 0x1_0000_0000_0000;
  }

  const U64: nat := 0x1_0000_0000_0000_0000

  // ----- Writing -----

  /** The length field and its extension. */
  function LengthField(len: nat): (bs: seq<byte>)
    requires len < U64
    ensures bs != [] && bs[0] < 128
  {
    if len < 126 then [len]
    else if len <= 0xFFFF then [126] + ToBigEndian(len, 2)
    else [127] + ToBigEndian(len, 8)
  }

  function FirstByte(opcode: byte): byte { if opcode < 128 then 128 + opcode else opcode }

  function Encode(f: Frame): seq<byte>
    requires |f.payload| < U64
  {
    [FirstByte(f.opcode)] + LengthField(|f.payload|) + f.payload
  }

  /** A client frame: the mask bit set, the key, and the masked payload. */
  function EncodeMasked(f: Frame, key: seq<byte>): seq<byte>
    requires |f.payload| < U64 && |key| == 4
  {
    var field := LengthField(|f.payload|);
    [FirstByte(f.opcode), field[0] + 128] + (field[1..] + (key + Masked(f.payload, key)))
  }

  method WriteFrame(opcode: byte, payload: seq<byte>) returns (wire: seq<byte>)
    requires |payload| < U64
    ensures wire == Encode(Frame(opcode, payload))
  {
    var header := [FirstByte(opcode)];
    var len := |payload|;
    if len < 126 {
      header := header + [len];
    } else if len <= 0xFFFF {
      header := header + [126];
      header := header + ToBigEndian(len, 2);
      Assoc([FirstByte(opcode)], [126], ToBigEndian(len, 2));
    } else {
      header := header + [127];
      header := header + ToBigEndian(len, 8);
      Assoc([FirstByte(opcode)], [127], ToBigEndian(len, 8));
    }
    wire := header;
    if payload != [] {
      wire := wire + payload;
    }
  }

  // ----- Reading -----

  /** Take `n` bytes off the front, or fail at the end of the stream. */
  function Take(bs: seq<byte>, n: nat): Option<(seq<byte>, seq<byte>)> {
    if n <= |bs| then Some((bs[..n], bs[n..])) else None
  }

  /** The length announced by the second header byte and its extension, and what follows. */
  function DecodeLength(second: byte, bs: seq<byte>): Option<(nat, seq<byte>)> {
    var len := second % 128;
    if len == 126 || len == 127 then
      var ext := Take(bs, if len == 126 then 2 else 8);
      if ext.None? then None else Some((FromBigEndian(ext.value.0), ext.value.1))
    else Some((len, bs))
  }

  /** The key, if there is one, and the payload of `len` bytes. */
  function DecodeBody(opcode: byte, masked: bool, len: nat, bs: seq<byte>): Option<(Frame, seq<byte>)> {
    var key := if masked then Take(bs, 4) else Some(([], bs));
    if key.None? then None
    else
      var body := Take(key.value.1, len);
      if body.None? then None
      else Some((Frame(opcode, if masked then Masked(body.value.0, key.value.0) else body.value.0), body.value.1))
  }

  /** One frame off the front of a byte stream; `None` when the stream ends inside it. */
  function Decode(bs: seq<byte>): Option<(Frame, seq<byte>)> {
    if |bs| < 2 then None
    else
      var length := DecodeLength(bs[1], bs[2..]);
      if length.None? then None
      else DecodeBody(bs[0] % 16, bs[1] >= 128, length.value.0, length.value.1)
  }

  lemma DecodeLengthField(len: nat, second: byte, rest: seq<byte>)
    requires len < U64
    requires var field := LengthField(len); second == field[0] || second == field[0] + 128
    ensures DecodeLength(second, LengthField(len)[1..] + rest) == Some((len, rest))
  {
    WordSizes();
    var field := LengthField(len);
    assert second % 128 == field[0];
    if len < 126 {
      assert field[1..] + rest == rest;
    } else {
      var size := if len <= 0xFFFF then 2 else 8;
      assert field[1..] == ToBigEndian(len, size);
      BigEndianRoundTrip(len, size);
      TakeFront(ToBigEndian(len, size), rest);
    }
  }

  lemma TakeFront(a: seq<byte>, rest: seq<byte>)
    ensures Take(a + rest, |a|) == Some((a, rest))
  {
  }

  /** A written frame decodes to itself, and reading goes on after it. */
  lemma DecodeEncoded(f: Frame, rest: seq<byte>)
    requires f.opcode < 16 && |f.payload| < U64
    ensures Decode(Encode(f) + rest) == Some((f, rest))
  {
    var field := LengthField(|f.payload|);
    var bs := Encode(f) + rest;
    assert bs[0] == FirstByte(f.opcode) && bs[1] == field[0];
    assert bs[2..] == field[1..] + (f.payload + rest);
    DecodeLengthField(|f.payload|, field[0], f.payload + rest);
    TakeFront(f.payload, rest);
  }

  /** A masked frame decodes to the unmasked payload, whatever the key. */
  lemma DecodeMasked(f: Frame, key: seq<byte>, rest: seq<byte>)
    requires f.opcode < 16 && |f.payload| < U64 && |key| == 4
    ensures Decode(EncodeMasked(f, key) + rest) == Some((f, rest))
  {
    var field, masked := LengthField(|f.payload|), Masked(f.payload, key);
    MaskedLayout(FirstByte(f.opcode), field[0] + 128, field[1..], key, masked, rest);
    DecodeLengthField(|f.payload|, field[0] + 128, key + (masked + rest));
    DecodeHeader(EncodeMasked(f, key) + rest, f.opcode, |f.payload|, key + (masked + rest));
    DecodeMaskedBody(f, key, rest);
  }

  lemma DecodeHeader(bs: seq<byte>, opcode: byte, len: nat, tail: seq<byte>)
    requires |bs| >= 2 && bs[0] % 16 == opcode && bs[1] >= 128
    requires DecodeLength(bs[1], bs[2..]) == Some((len, tail))
    ensures Decode(bs) == DecodeBody(opcode, true, len, tail)
  {
  }

  lemma DecodeMaskedBody(f: Frame, key: seq<byte>, rest: seq<byte>)
    requires |key| == 4
    ensures DecodeBody(f.opcode, true, |f.payload|, key + (Masked(f.payload, key) + rest)) == Some((f, rest))
  {
    TakeFront(key, Masked(f.payload, key) + rest);
    TakeFront(Masked(f.payload, key), rest);
    MaskedTwice(f.payload, key);
  }

  lemma MaskedLayout(first: byte, second: byte, ext: seq<byte>, key: seq<byte>, masked: seq<byte>, rest: seq<byte>)
    ensures var bs := [first, second] + (ext + (key + masked)) + rest;
            bs[0] == first && bs[1] == second && bs[2..] == ext + (key + (masked + rest))
  {
    Assoc([first, second], ext + (key + masked), rest);
    Assoc(ext, key + masked, rest);
    Assoc(key, masked, rest);
    DropTwo(first, second, ext + (key + (masked + rest)));
  }

  lemma DropTwo(a: byte, b: byte, tail: seq<byte>)
    ensures ([a, b] + tail)[2..] == tail
  {
  }

  /** What the two header bytes of a written frame say: the final fragment, no mask, and the length or
      the size of the length that follows; and that the payload comes last. */
  lemma HeaderBytes(f: Frame)
    requires f.opcode < 16 && |f.payload| < U64
    ensures var len, bs := |f.payload|, Encode(f);
            && bs[..2] == [0x80 + f.opcode, if len <= 125 then len else if len <= 65535 then 126 else 127]
            && |bs| == len + (if len <= 125 then 2 else if len <= 65535 then 4 else 10)
            && bs[|bs| - len..] == f.payload
  {
  }

  /** The same of a masked frame: the mask bit, and the key before the payload. */
  lemma MaskedHeaderBytes(f: Frame, key: seq<byte>)
    requires f.opcode < 16 && |f.payload| < U64 && |key| == 4
    ensures var len, bs := |f.payload|, EncodeMasked(f, key);
            && bs[..2] == [0x80 + f.opcode, 0x80 + (if len <= 125 then len else if len <= 65535 then 126 else 127)]
            && |bs| == len + (if len <= 125 then 6 else if len <= 65535 then 8 else 14)
            && bs[|bs| - len - 4..|bs| - len] == key
  {
    var field := LengthField(|f.payload|);
    var head, tail := [FirstByte(f.opcode), field[0] + 128], Masked(f.payload, key);
    KeyBefore(head, field[1..], key, tail);
  }

  lemma KeyBefore(head: seq<byte>, ext: seq<byte>, key: seq<byte>, tail: seq<byte>)
    requires |head| == 2
    ensures var bs := head + (ext + (key + tail));
            && bs[..2] == head && |bs| == 2 + |ext| + |key| + |tail|
            && bs[|bs| - |tail| - |key|..|bs| - |tail|] == key
  {
  }

  function EncodeAll(frames: seq<Frame>): seq<byte>
    requires forall i :: 0 <= i < |frames| ==> |frames[i].payload| < U64
  {
    if frames == [] then [] else Encode(frames[0]) + EncodeAll(frames[1..])
  }

  /** All complete frames of a stream. */
  function DecodeAll(bs: seq<byte>): seq<Frame>
    decreases |bs|
  {
    var first := Decode(bs);
    if first.None? then []
    else
      DecodeConsumes(bs);
      [first.value.0] + DecodeAll(first.value.1)
  }

  lemma DecodeConsumes(bs: seq<byte>)
    ensures Decode(bs).Some? ==> |Decode(bs).value.1| < |bs|
  {
  }

  lemma {:induction false} FramesRoundTrip(frames: seq<Frame>)
    requires forall i :: 0 <= i < |frames| ==> frames[i].opcode < 16 && |frames[i].payload| < U64
    ensures DecodeAll(EncodeAll(frames)) == frames
  {
    if frames != [] {
      DecodeEncoded(frames[0], EncodeAll(frames[1..]));
      FramesRoundTrip(frames[1..]);
    }
  }

  /** A frame cut short is not read. */
  lemma DecodeCut(f: Frame, k: nat)
    requires |f.payload| < U64 && k < |Encode(f)|
    ensures Decode(Encode(f)[..k]) == None
  {
    if k >= 2 {
      var field := LengthField(|f.payload|);
      CutHeader(FirstByte(f.opcode), field, f.payload, k);
      if k - 2 < |field| - 1 {
        ExtensionCut(|f.payload|, k - 2);
      } else {
        DecodeLengthField(|f.payload|, field[0], f.payload[..k - 1 - |field|]);
      }
    }
  }

  lemma CutHeader(first: byte, field: seq<byte>, payload: seq<byte>, k: nat)
    requires field != [] && 2 <= k < 1 + |field| + |payload|
    ensures var t := ([first] + field + payload)[..k];
            && t[0] == first && t[1] == field[0]
            && t[2..] == if k - 2 < |field| - 1 then field[1..][..k - 2] else field[1..] + payload[..k - 1 - |field|]
  {
  }

  lemma ExtensionCut(len: nat, k: nat)
    requires len < U64 && k < |LengthField(len)| - 1
    ensures DecodeLength(LengthField(len)[0], LengthField(len)[1..][..k]) == None
  {
  }

  /** How many frames lie completely within the first `k` bytes. */
  function Complete(frames: seq<Frame>, k: nat): (n: nat)
    requires forall i :: 0 <= i < |frames| ==> |frames[i].payload| < U64
    ensures n <= |frames|
    ensures k >= |EncodeAll(frames)| ==> n == |frames|
    decreases |frames|
  {
    if frames == [] || |Encode(frames[0])| > k then 0
    else 1 + Complete(frames[1..], k - |Encode(frames[0])|)
  }

  /** Wherever the stream is cut, exactly the frames that are complete before the cut are read. */
  lemma {:induction false} CutReadsPrefix(frames: seq<Frame>, k: nat)
    requires forall i :: 0 <= i < |frames| ==> frames[i].opcode < 16 && |frames[i].payload| < U64
    requires k <= |EncodeAll(frames)|
    ensures DecodeAll(EncodeAll(frames)[..k]) == frames[..Complete(frames, k)]
    decreases |frames|
  {
    if frames != [] {
      var first, rest := Encode(frames[0]), EncodeAll(frames[1..]);
      CutConcat(first, rest, k);
      if |first| > k {
        DecodeCut(frames[0], k);
      } else {
        DecodeEncoded(frames[0], rest[..k - |first|]);
        CutReadsPrefix(frames[1..], k - |first|);
        ConsSlice(frames, Complete(frames[1..], k - |first|));
      }
    }
  }

  /** The length is always written in the shortest of the three forms: any length field that
      decodes to the same length is at least as long. */
  lemma ShortestLength(len: nat, field: seq<byte>)
    requires len < U64 && field != []
    requires DecodeLength(field[0], field[1..]) == Some((len, []))
    ensures |LengthField(len)| <= |field|
  {
    WordSizes();
    var ext := field[1..];
    if field[0] % 128 == 126 {
      assert |ext| == 2 && ext[..2] == ext;
      FromBigEndianBelow(ext);
    }
  }

  lemma {:induction false} FromBigEndianBelow(bs: seq<byte>)
    ensures FromBigEndian(bs) < Pow256(|bs|)
  {
    if bs != [] {
      FromBigEndianBelow(bs[..|bs| - 1]);
    }
  }

  /** The reader: header, extension, key and payload read off the stream in turn, the payload
      unmasked in place. */
  method ReadFrame(bs: seq<byte>) returns (r: Option<(Frame, seq<byte>)>)
    ensures r == Decode(bs)
  {
    if |bs| < 2 {
      return None;
    }
    var opcode, masked, len := bs[0] % 16, bs[1] >= 128, bs[1] % 128;
    var rest := bs[2..];
    if len == 126 {
      if |rest| < 2 { return None; }
      len, rest := FromBigEndian(rest[..2]), rest[2..];
    } else if len == 127 {
      if |rest| < 8 { return None; }
      len, rest := FromBigEndian(rest[..8]), rest[8..];
    }
    var key: seq<byte> := [];
    if masked {
      if |rest| < 4 { return None; }
      key, rest := rest[..4], rest[4..];
    }
    if |rest| < len {
      return None;
    }
    var payload := new byte[len](i requires 0 <= i < len <= |rest| => rest[i]);
    assert payload[..] == rest[..len];
    if masked {
      UnmaskInPlace(payload, key);
    }
    return Some((Frame(opcode, payload[..]), rest[len..]));
  }
}

/** The embedded font pack: a count, then length-prefixed names and data, all lengths in four
    little-endian bytes. The build script writes it, the font module reads it. */
module FontPack {
  import opened Sequences
  import opened Text
  import opened Bytes

  datatype Font = Font(name: string, data: seq<byte>)

  const U32: nat := 0x1_0000_0000

  /** UTF-8 and its lossy decoder, of which only the round trip on encoded text matters. */
  datatype Codec = Codec(encode: string -> seq<byte>, decode: seq<byte> -> string)

  ghost predicate Faithful(c: Codec) { forall s :: c.decode(c.encode(s)) == s }

  function ToU32(n: nat): (bs: seq<byte>)
    requires n < U32
    ensures |bs| == 4
  {
    var a := n / 256;
    var b := a / 256;
    [n % 256, a % 256, b % 256, b / 256]
  }

  function FromU32(bs: seq<byte>): (n: nat)
    requires |bs| == 4
    ensures n < U32
  {
    var b0: int, b1: int, b2: int, b3: int := bs[0], bs[1], bs[2], bs[3];
    b0 + 256 * (b1 + 256 * (b2 + 256 * b3))
  }

  lemma U32RoundTrip(n: nat)
    requires n < U32
    ensures FromU32(ToU32(n)) == n
  {
  }

  /** The first byte weighs least. */
  lemma U32Weights(bs: seq<byte>)
    requires |bs| == 4
    ensures FromU32(bs) ==
            (bs[0] as int) + 0x100 * (bs[1] as int) + 0x1_0000 * (bs[2] as int) + 0x100_0000 * (bs[3] as int)
  {
  }

  // ----- Writing -----

  predicate Storable(c: Codec, f: Font) { |c.encode(f.name)| < U32 && |f.data| < U32 }

  /** A length-prefixed field. */
  function Field(bs: seq<byte>): seq<byte>
    requires |bs| < U32
  {
    ToU32(|bs|) + bs
  }

  function PackFont(c: Codec, f: Font): seq<byte>
    requires Storable(c, f)
  {
    Field(c.encode(f.name)) + Field(f.data)
  }

  function PackFonts(c: Codec, fonts: seq<Font>): seq<byte>
    requires forall i :: 0 <= i < |fonts| ==> Storable(c, fonts[i])
  {
    if fonts == [] then [] else PackFont(c, fonts[0]) + PackFonts(c, fonts[1..])
  }

  function Pack(c: Codec, fonts: seq<Font>): seq<byte>
    requires |fonts| < U32 && forall i :: 0 <= i < |fonts| ==> Storable(c, fonts[i])
  {
    ToU32(|fonts|) + PackFonts(c, fonts)
  }

  lemma {:induction false} PackFontsAppend(c: Codec, fonts: seq<Font>, f: Font)
    requires (forall i :: 0 <= i < |fonts| ==> Storable(c, fonts[i])) && Storable(c, f)
    ensures PackFonts(c, fonts + [f]) == PackFonts(c, fonts) + PackFont(c, f)
  {
    if fonts == [] {
      assert fonts + [f] == [f] && [f][1..] == [];
      assert PackFonts(c, [f]) == PackFont(c, f) + PackFonts(c, [f][1..]);
    } else {
      assert (fonts + [f])[1..] == fonts[1..] + [f];
      PackFontsAppend(c, fonts[1..], f);
      Assoc(PackFont(c, fonts[0]), PackFonts(c, fonts[1..]), PackFont(c, f));
    }
  }

  /** The build script's loop. */
  method WritePack(c: Codec, fonts: seq<Font>) returns (binary: seq<byte>)
    requires |fonts| < U32 && forall i :: 0 <= i < |fonts| ==> Storable(c, fonts[i])
    ensures binary == Pack(c, fonts)
  {
    binary := ToU32(|fonts|);
    for i := 0 to |fonts|
      invariant binary == ToU32(|fonts|) + PackFonts(c, fonts[..i])
    {
      var name, data := c.encode(fonts[i].name), fonts[i].data;
      ghost var before := binary;
      binary := binary + ToU32(|name|);
      binary := binary + name;
      binary := binary + ToU32(|data|);
      binary := binary + data;
      AppendedFields(before, name, data);
      PackFontsAppend(c, fonts[..i], fonts[i]);
      assert fonts[..i + 1] == fonts[..i] + [fonts[i]];
      Assoc(ToU32(|fonts|), PackFonts(c, fonts[..i]), PackFont(c, fonts[i]));
    }
    assert fonts[..|fonts|] == fonts;
  }

  lemma AppendedFields(before: seq<byte>, name: seq<byte>, data: seq<byte>)
    requires |name| < U32 && |data| < U32
    ensures before + ToU32(|name|) + name + ToU32(|data|) + data == before + (Field(name) + Field(data))
  {
    Assoc(before, ToU32(|name|), name);
    Assoc(before + Field(name), ToU32(|data|), data);
    Assoc(before, Field(name), Field(data));
  }

  // ----- Reading -----

  /** A length-prefixed field off the front, and what follows. */
  function ReadField(bs: seq<byte>): (r: Option<(seq<byte>, seq<byte>)>)
    ensures r.Some? ==> |r.value.0| + |r.value.1| + 4 == |bs|
  {
    if |bs| < 4 then None
    else
      var len := FromU32(bs[..4]);
      if len > |bs| - 4 then None else Some((bs[4..4 + len], bs[4 + len..]))
  }

  function ReadFont(c: Codec, bs: seq<byte>): (r: Option<(Font, seq<byte>)>)
    ensures r.Some? ==> |r.value.1| < |bs|
  {
    var name := ReadField(bs);
    if name.None? then None
    else
      var data := ReadField(name.value.1);
      if data.None? then None else Some((Font(c.decode(name.value.0), data.value.0), data.value.1))
  }

  /** Up to `count` fonts; reading stops at the first that is cut short. */
  function ReadFonts(c: Codec, bs: seq<byte>, count: nat): seq<Font> {
    if count == 0 then []
    else
      var first := ReadFont(c, bs);
      if first.None? then [] else [first.value.0] + ReadFonts(c, first.value.1, count - 1)
  }

  function Unpack(c: Codec, bs: seq<byte>): seq<Font> {
    if |bs| < 4 then [] else ReadFonts(c, bs[4..], FromU32(bs[..4]))
  }

  lemma ReadFieldFront(field: seq<byte>, rest: seq<byte>)
    requires |field| < U32
    ensures ReadField(Field(field) + rest) == Some((field, rest))
  {
    var bs := Field(field) + rest;
    U32RoundTrip(|field|);
    assert bs[..4] == ToU32(|field|) && bs[4..4 + |field|] == field && bs[4 + |field|..] == rest;
  }

  lemma ReadFontFront(c: Codec, f: Font, rest: seq<byte>)
    requires Faithful(c) && Storable(c, f)
    ensures ReadFont(c, PackFont(c, f) + rest) == Some((f, rest))
  {
    var name := c.encode(f.name);
    Assoc(Field(name), Field(f.data), rest);
    ReadFieldFront(name, Field(f.data) + rest);
    ReadFieldFront(f.data, rest);
  }

  /** A field cut short is not read. */
  lemma ReadFieldCut(field: seq<byte>, k: nat)
    requires |field| < U32 && k < |Field(field)|
    ensures ReadField(Field(field)[..k]) == None
  {
    var t := Field(field)[..k];
    U32RoundTrip(|field|);
    if k >= 4 {
      assert t[..4] == ToU32(|field|);
    }
  }

  lemma ReadFontCut(c: Codec, f: Font, k: nat)
    requires Storable(c, f) && k < |PackFont(c, f)|
    ensures ReadFont(c, PackFont(c, f)[..k]) == None
  {
    var name := Field(c.encode(f.name));
    var t := PackFont(c, f)[..k];
    if k < |name| {
      assert t == name[..k];
      ReadFieldCut(c.encode(f.name), k);
    } else {
      var rest := Field(f.data)[..k - |name|];
      assert t == name + rest;
      ReadFieldFront(c.encode(f.name), rest);
      ReadFieldCut(f.data, k - |name|);
    }
  }

  /** How many fonts lie completely within the first `k` bytes. */
  function Complete(c: Codec, fonts: seq<Font>, k: nat): (n: nat)
    requires forall i :: 0 <= i < |fonts| ==> Storable(c, fonts[i])
    ensures n <= |fonts|
    ensures k >= |PackFonts(c, fonts)| ==> n == |fonts|
    decreases |fonts|
  {
    if fonts == [] || |PackFont(c, fonts[0])| > k then 0
    else 1 + Complete(c, fonts[1..], k - |PackFont(c, fonts[0])|)
  }

  lemma ReadFontsFront(c: Codec, f: Font, rest: seq<byte>, count: nat)
    requires Faithful(c) && Storable(c, f) && count > 0
    ensures ReadFonts(c, PackFont(c, f) + rest, count) == [f] + ReadFonts(c, rest, count - 1)
  {
    ReadFontFront(c, f, rest);
  }

  lemma HeadOf(count: seq<byte>, rest: seq<byte>)
    requires |count| == 4
    ensures (count + rest)[..4] == count && (count + rest)[4..] == rest
  {
  }

  lemma {:induction false} ReadFontsCut(c: Codec, fonts: seq<Font>, k: nat, count: nat)
    requires Faithful(c) && forall i :: 0 <= i < |fonts| ==> Storable(c, fonts[i])
    requires k <= |PackFonts(c, fonts)| && count == |fonts|
    ensures ReadFonts(c, PackFonts(c, fonts)[..k], count) == fonts[..Complete(c, fonts, k)]
    decreases |fonts|
  {
    if fonts != [] {
      var first, rest := PackFont(c, fonts[0]), PackFonts(c, fonts[1..]);
      if |first| > k {
        CutConcat(first, rest, k);
        ReadFontCut(c, fonts[0], k);
      } else {
        CutConcat(first, rest, k);
        ReadFontsFront(c, fonts[0], rest[..k - |first|], count);
        ReadFontsCut(c, fonts[1..], k - |first|, count - 1);
        ConsSlice(fonts, Complete(c, fonts[1..], k - |first|));
      }
    }
  }

  /** The bytes of a pack with one font: the count, and name and data each behind its length. */
  lemma OneFontLayout(c: Codec, f: Font)
    requires Storable(c, f)
    ensures var name, bs := c.encode(f.name), Pack(c, [f]);
            var n := |name|;
            && |bs| == 12 + n + |f.data|
            && FromU32(bs[..4]) == 1 && FromU32(bs[4..8]) == n && bs[8..8 + n] == name
            && FromU32(bs[8 + n..12 + n]) == |f.data| && bs[12 + n..] == f.data
  {
    var name := c.encode(f.name);
    assert [f][1..] == [];
    assert PackFonts(c, [f]) == PackFont(c, f) + PackFonts(c, [f][1..]);
    NilRight(PackFont(c, f));
    U32RoundTrip(1);
    U32RoundTrip(|name|);
    U32RoundTrip(|f.data|);
    FiveParts(ToU32(1), ToU32(|name|), name, ToU32(|f.data|), f.data);
  }

  lemma FiveParts(count: seq<byte>, a: seq<byte>, name: seq<byte>, b: seq<byte>, data: seq<byte>)
    requires |count| == 4 && |a| == 4 && |b| == 4
    ensures var bs := count + ((a + name) + (b + data));
            var n := |name|;
            && |bs| == 12 + n + |data| && bs[..4] == count && bs[4..8] == a && bs[8..8 + n] == name
            && bs[8 + n..12 + n] == b && bs[12 + n..] == data
  {
  }

  /** Every truncation of a pack reads as exactly the fonts it still holds completely; the whole
      pack reads as all of them. */
  lemma TruncationReadsPrefix(c: Codec, fonts: seq<Font>, k: nat)
    requires Faithful(c) && |fonts| < U32 && forall i :: 0 <= i < |fonts| ==> Storable(c, fonts[i])
    requires k <= |Pack(c, fonts)|
    ensures Unpack(c, Pack(c, fonts)[..k]) == if k < 4 then [] else fonts[..Complete(c, fonts, k - 4)]
    ensures k == |Pack(c, fonts)| ==> Unpack(c, Pack(c, fonts)[..k]) == fonts
  {
    if k >= 4 {
      var t := Pack(c, fonts)[..k];
      U32RoundTrip(|fonts|);
      CutConcat(ToU32(|fonts|), PackFonts(c, fonts), k);
      HeadOf(ToU32(|fonts|), PackFonts(c, fonts)[..k - 4]);
      ReadFontsCut(c, fonts, k - 4, |fonts|);
    }
  }

  // ----- The table -----

  /** Fonts inserted into a hash map in turn. */
  function Table(fonts: seq<Font>): map<string, seq<byte>> {
    if fonts == [] then map[]
    else Table(fonts[..|fonts| - 1])[fonts[|fonts| - 1].name := fonts[|fonts| - 1].data]
  }

  predicate DistinctNames(fonts: seq<Font>) {
    forall i, j :: 0 <= i < j < |fonts| ==> fonts[i].name != fonts[j].name
  }

  lemma {:induction false} TableHolds(fonts: seq<Font>)
    requires DistinctNames(fonts)
    ensures forall i :: 0 <= i < |fonts| ==>
              fonts[i].name in Table(fonts) && Table(fonts)[fonts[i].name] == fonts[i].data
    ensures forall name :: name in Table(fonts) ==> exists i :: 0 <= i < |fonts| && fonts[i].name == name
  {
    if fonts != [] {
      var n := |fonts| - 1;
      TableHolds(fonts[..n]);
      forall name | name in Table(fonts) ensures exists i :: 0 <= i < |fonts| && fonts[i].name == name {
        if name != fonts[n].name {
          var i :| 0 <= i < n && fonts[..n][i].name == name;
          assert fonts[i].name == name;
        }
      }
    }
  }

  /** Read a field at an offset, bounds checked before every access. */
  method ReadFieldAt(data: seq<byte>, offset: nat) returns (field: Option<seq<byte>>, next: nat)
    requires offset <= |data|
    ensures field.None? <==> ReadField(data[offset..]).None?
    ensures field.Some? ==> offset < next <= |data| && ReadField(data[offset..]) == Some((field.value, data[next..]))
  {
    ghost var rest := data[offset..];
    next := offset;
    if next + 4 > |data| {
      return None, next;
    }
    var len := FromU32(data[next..next + 4]);
    assert rest[..4] == data[next..next + 4];
    next := next + 4;
    if next + len > |data| {
      return None, next;
    }
    field := Some(data[next..next + len]);
    assert rest[4..4 + len] == data[next..next + len] && rest[4 + len..] == data[next + len..];
    next := next + len;
  }

  /** A name and its data at an offset. */
  method ReadFontAt(c: Codec, data: seq<byte>, offset: nat) returns (font: Option<Font>, next: nat)
    requires offset <= |data|
    ensures font.None? <==> ReadFont(c, data[offset..]).None?
    ensures font.Some? ==> offset < next <= |data| && ReadFont(c, data[offset..]) == Some((font.value, data[next..]))
  {
    var name, afterName := ReadFieldAt(data, offset);
    if name.None? {
      return None, offset;
    }
    var body, afterBody := ReadFieldAt(data, afterName);
    if body.None? {
      return None, offset;
    }
    return Some(Font(c.decode(name.value), body.value)), afterBody;
  }

  /** The decoder's loop, for any bytes at all: it never reads out of range. */
  method ReadPack(c: Codec, data: seq<byte>) returns (fonts: map<string, seq<byte>>)
    ensures fonts == Table(Unpack(c, data))
  {
    fonts := map[];
    if |data| < 4 {
      return;
    }
    var count := FromU32(data[..4]);
    var offset := 4;
    ghost var read: seq<Font> := [];
    ghost var all := Unpack(c, data);
    for i := 0 to count
      invariant 4 <= offset <= |data|
      invariant fonts == Table(read)
      invariant all == read + ReadFonts(c, data[offset..], count - i)
    {
      var font, next := ReadFontAt(c, data, offset);
      NextFont(c, data[offset..], count - i, read);
      if font.None? {
        return;
      }
      TableAppend(read, font.value);
      read := read + [font.value];
      fonts := fonts[font.value.name := font.value.data];
      offset := next;
    }
    NilRight(read);
  }

  /** What is read off the front joins what has been read. */
  lemma NextFont(c: Codec, bs: seq<byte>, count: nat, read: seq<Font>)
    requires count > 0
    ensures read + ReadFonts(c, bs, count) ==
            match ReadFont(c, bs)
            case None => read
            case Some((font, rest)) => read + [font] + ReadFonts(c, rest, count - 1)
  {
    if ReadFont(c, bs).Some? {
      var (font, rest) := ReadFont(c, bs).value;
      Assoc(read, [font], ReadFonts(c, rest, count - 1));
    }
  }

  lemma TableAppend(fonts: seq<Font>, f: Font)
    ensures Table(fonts + [f]) == Table(fonts)[f.name := f.data]
  {
    assert (fonts + [f])[..|fonts|] == fonts;
  }
}

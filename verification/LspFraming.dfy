/** Content-Length framing of JSON-RPC messages (Language Server Protocol 3.17, "Base Protocol"):
    the writer, and the reader over a transport that hands out bytes in arbitrary pieces. */
module LspFraming {
  import opened Sequences
  import opened Text
  import opened Bytes

  const NEWLINE: byte := 10

  // ----- The transport -----

  /** A buffered byte source. `chunks` is what the transport will still deliver, split in whatever
      way it likes. */
  class ByteSource {
    var buffer: seq<byte>
    var chunks: seq<seq<byte>>

    ghost predicate Valid()
      reads this
    {
      forall i :: 0 <= i < |chunks| ==> chunks[i] != []
    }

    ghost function Remaining(): seq<byte>
      reads this
    {
      buffer + Join(chunks)
    }

    constructor (pieces: seq<seq<byte>>)
      requires forall i :: 0 <= i < |pieces| ==> pieces[i] != []
      ensures Valid() && Remaining() == Join(pieces)
    {
      buffer, chunks := [], pieces;
    }

    /** Refill an empty buffer; it stays empty only at the end of the stream. */
    method Fill()
      requires Valid()
      modifies this
      ensures Valid() && Remaining() == old(Remaining())
      ensures buffer == [] ==> Remaining() == []
    {
      if buffer == [] && chunks != [] {
        buffer, chunks := chunks[0], chunks[1..];
      }
    }

    /** Bytes up to and including the delimiter, or all that is left. */
    method ReadUntil(delimiter: byte) returns (line: seq<byte>)
      requires Valid()
      modifies this
      ensures Valid()
      ensures line == TakeThrough(old(Remaining()), delimiter)
      ensures old(Remaining()) == line + Remaining()
    {
      line := [];
      ghost var all := Remaining();
      while true
        invariant Valid() && all == line + Remaining()
        invariant delimiter !in line
        decreases |Remaining()|
      {
        Fill();
        if buffer == [] {
          TakeThroughAll(line, delimiter);
          assert all == line;
          return;
        }
        var n := IndexOf(buffer, delimiter);
        var piece := if n < |buffer| then buffer[..n + 1] else buffer;
        var rest := buffer[|piece|..];
        assert buffer == piece + rest;
        Assoc(piece, rest, Join(chunks));
        Assoc(line, piece, rest + Join(chunks));
        if n < |buffer| {
          TakeThroughAt(line + buffer[..n], delimiter, rest + Join(chunks));
          assert line + buffer[..n] + [delimiter] == line + piece;
        }
        line := line + piece;
        buffer := rest;
        if n < |piece| {
          return;
        }
      }
    }

    /** One read: some bytes, none only at the end of the stream. */
    method Read(max: nat) returns (got: seq<byte>)
      requires Valid() && max > 0
      modifies this
      ensures Valid() && |got| <= max
      ensures old(Remaining()) == got + Remaining()
      ensures got == [] ==> Remaining() == []
    {
      Fill();
      var n := if |buffer| < max then |buffer| else max;
      got := buffer[..n];
      assert buffer == got + buffer[n..];
      Assoc(got, buffer[n..], Join(chunks));
      buffer := buffer[n..];
    }

    /** Fill `buf` completely, in as many reads as it takes. */
    method ReadExact(buf: array<byte>) returns (ok: bool)
      requires Valid()
      modifies this, buf
      ensures Valid()
      ensures ok <==> buf.Length <= |old(Remaining())|
      ensures ok ==> old(Remaining()) == buf[..] + Remaining()
    {
      var offset := 0;
      ghost var all := Remaining();
      while offset < buf.Length
        invariant Valid() && offset <= buf.Length
        invariant all == buf[..offset] + Remaining()
      {
        var got := Read(buf.Length - offset);
        if got == [] {
          return false;
        }
        ghost var before := buf[..offset];
        forall i | 0 <= i < |got| {
          buf[offset + i] := got[i];
        }
        assert buf[..offset + |got|] == before + got;
        Assoc(before, got, Remaining());
        offset := offset + |got|;
      }
      assert buf[..offset] == buf[..];
      return true;
    }
  }

  function IndexOf(bs: seq<byte>, b: byte): (n: nat)
    ensures n <= |bs| && b !in bs[..n] && (n < |bs| ==> bs[n] == b)
  {
    if bs == [] || bs[0] == b then 0
    else
      var n := 1 + IndexOf(bs[1..], b);
      assert bs[..n] == [bs[0]] + bs[1..][..n - 1];
      n
  }

  function TakeThrough(bs: seq<byte>, b: byte): (line: seq<byte>)
    ensures line <= bs && (bs != [] ==> line != [])
  {
    var n := IndexOf(bs, b);
    if n < |bs| then bs[..n + 1] else bs
  }

  lemma {:induction false} IndexOfAt(a: seq<byte>, b: byte, rest: seq<byte>)
    requires b !in a
    ensures IndexOf(a, b) == |a|
    ensures IndexOf(a + [b] + rest, b) == |a|
  {
    if a == [] {
      assert a + [b] + rest == [b] + rest;
    } else {
      assert (a + [b] + rest)[1..] == a[1..] + [b] + rest;
      IndexOfAt(a[1..], b, rest);
    }
  }

  lemma TakeThroughAt(a: seq<byte>, b: byte, rest: seq<byte>)
    requires b !in a
    ensures TakeThrough(a + [b] + rest, b) == a + [b]
  {
    IndexOfAt(a, b, rest);
    assert (a + [b] + rest)[..|a| + 1] == a + [b];
  }

  lemma TakeThroughAll(a: seq<byte>, b: byte)
    requires b !in a
    ensures TakeThrough(a, b) == a
  {
    IndexOfAt(a, b, []);
  }

  // ----- Header lines -----

  /** Bytes to text, `String::from_utf8_lossy`; only its behaviour on ASCII matters here. */
  type Lossy = seq<byte> -> string

  ghost predicate AsciiTransparent(lossy: Lossy) {
    forall bs :: IsAscii(bs) ==> lossy(bs) == AsChars(bs)
  }

  const USIZE_LIMIT: nat := 0x1_0000_0000_0000_0000

  /** `str::parse::<usize>`: an optional plus sign, digits, no overflow. */
  function ParseUsize(s: string): Option<nat> {
    var digits := if s != "" && s[0] == '+' then s[1..] else s;
    if digits == "" || !AllDigits(digits) || DigitsValue(digits) >= USIZE_LIMIT then None
    else Some(DigitsValue(digits))
  }

  const LENGTH_NAME: string := "Content-Length:"

  function ContentLength(line: string): Option<nat> {
    if LENGTH_NAME <= line then ParseUsize(Trim(line[|LENGTH_NAME|..])) else None
  }

  /** The bodies that a byte stream delivers, with `len` the length announced so far. */
  function Drain(lossy: Lossy, bs: seq<byte>, len: Option<nat>): seq<seq<byte>>
    decreases |bs|
  {
    if bs == [] then []
    else
      var line := TakeThrough(bs, NEWLINE);
      var text, rest := Trim(lossy(line)), bs[|line|..];
      if text != "" then
        var announced := ContentLength(text);
        Drain(lossy, rest, if announced.Some? then announced else len)
      else if len.None? then Drain(lossy, rest, None)
      else if len.value <= |rest| then [rest[..len.value]] + Drain(lossy, rest[len.value..], None)
      else []
  }

  /** The reader task. What it delivers depends only on the bytes, not on how they arrive. */
  method ReaderTask(source: ByteSource, lossy: Lossy) returns (bodies: seq<seq<byte>>)
    requires source.Valid()
    modifies source
    ensures bodies == Drain(lossy, old(source.Remaining()), None)
  {
    bodies := [];
    var contentLength: Option<nat> := None;
    ghost var all := source.Remaining();
    while true
      invariant source.Valid()
      invariant Drain(lossy, all, None) == bodies + Drain(lossy, source.Remaining(), contentLength)
      decreases |source.Remaining()|
    {
      ghost var before := source.Remaining();
      var line := source.ReadUntil(NEWLINE);
      if line == [] {
        return;
      }
      assert before[|line|..] == source.Remaining();
      var text := Trim(lossy(line));
      if text != "" {
        var announced := ContentLength(text);
        if announced.Some? {
          contentLength := announced;
        }
        continue;
      }
      if contentLength.None? {
        continue;
      }
      var buf := new byte[contentLength.value];
      ghost var body := source.Remaining();
      var ok := source.ReadExact(buf);
      if !ok {
        return;
      }
      assert body[..buf.Length] == buf[..] && body[buf.Length..] == source.Remaining();
      Assoc(bodies, [buf[..]], Drain(lossy, source.Remaining(), None));
      bodies, contentLength := bodies + [buf[..]], None;
    }
  }

  // ----- The writer, and the round trip -----

  const LENGTH_PREFIX: string := "Content-Length: "

  function HeaderLine(n: nat): (line: seq<byte>)
    ensures NEWLINE !in line && IsAscii(line) && line != []
  {
    NumeralIsAscii(n);
    AsBytes(LENGTH_PREFIX + Decimal(n) + "\r")
  }

  lemma NumeralIsAscii(n: nat)
    ensures IsAsciiText(LENGTH_PREFIX + Decimal(n) + "\r")
    ensures forall i :: 0 <= i < |LENGTH_PREFIX + Decimal(n) + "\r"| ==> (LENGTH_PREFIX + Decimal(n) + "\r")[i] != '\n'
  {
    var s := LENGTH_PREFIX + Decimal(n) + "\r";
    assert forall i :: 0 <= i < |LENGTH_PREFIX| ==> s[i] == LENGTH_PREFIX[i];
    assert forall i :: 0 <= i < |Decimal(n)| ==> s[|LENGTH_PREFIX| + i] == Decimal(n)[i] && IsDigit(Decimal(n)[i]);
    assert s[|s| - 1] == '\r';
  }

  function Header(n: nat): seq<byte> { HeaderLine(n) + [NEWLINE] + [13, NEWLINE] }

  function Frame(body: seq<byte>): seq<byte> { Header(|body|) + body }

  class ByteSink {
    var sent: seq<byte>

    method WriteAll(bs: seq<byte>)
      modifies this
      ensures sent == old(sent) + bs
    {
      sent := sent + bs;
    }
  }

  method WriteMessage(writer: ByteSink, body: seq<byte>)
    modifies writer
    ensures writer.sent == old(writer.sent) + Frame(body)
  {
    ghost var before := writer.sent;
    writer.WriteAll(Header(|body|));
    writer.WriteAll(body);
    Assoc(before, Header(|body|), body);
  }

  predicate IsSolid(s: string) { s != "" && !IsWhitespace(s[0]) && !IsWhitespace(s[|s| - 1]) }

  lemma {:induction false} TrimStartBlank(blank: string, s: string)
    requires IsBlank(blank) && (s == "" || !IsWhitespace(s[0]))
    ensures TrimStart(blank + s) == s
  {
    if blank == "" {
      assert blank + s == s;
    } else {
      assert (blank + s)[1..] == blank[1..] + s;
      TrimStartBlank(blank[1..], s);
    }
  }

  lemma {:induction false} TrimEndBlank(s: string, blank: string)
    requires IsBlank(blank) && (s == "" || !IsWhitespace(s[|s| - 1]))
    ensures TrimEnd(s + blank) == s
  {
    if blank == "" {
      assert s + blank == s;
    } else {
      assert (s + blank)[..|s + blank| - 1] == s + blank[..|blank| - 1];
      TrimEndBlank(s, blank[..|blank| - 1]);
    }
  }

  lemma TrimAround(before: string, s: string, after: string)
    requires IsBlank(before) && IsBlank(after) && IsSolid(s)
    ensures Trim(before + (s + after)) == s
  {
    TrimStartBlank(before, s + after);
    TrimEndBlank(s, after);
  }

  lemma TrimBlank(s: string)
    requires IsBlank(s)
    ensures Trim(s) == ""
  {
    TrimStartBlank(s, "");
    assert s + "" == s;
  }

  lemma {:induction false} TrimKeepsFirst(s: string)
    requires s != "" && !IsWhitespace(s[0])
    ensures Trim(s) != ""
    decreases |s|
  {
    assert TrimStart(s) == s;
    TrimEndKeepsFirst(s);
  }

  lemma {:induction false} TrimEndKeepsFirst(s: string)
    requires s != "" && !IsWhitespace(s[0])
    ensures TrimEnd(s) != ""
  {
    if IsWhitespace(s[|s| - 1]) {
      TrimEndKeepsFirst(s[..|s| - 1]);
    }
  }

  lemma ParseDecimal(n: nat)
    requires n < USIZE_LIMIT
    ensures ParseUsize(Decimal(n)) == Some(n)
  {
    DecimalRoundTrip(n);
    assert IsDigit(Decimal(n)[0]);
  }

  lemma DecimalIsSolid(n: nat)
    ensures IsSolid(Decimal(n))
  {
    var d := Decimal(n);
    assert IsDigit(d[0]) && IsDigit(d[|d| - 1]);
  }

  /** The header line the writer produces announces the length it was given. */
  lemma HeaderLineParses(n: nat)
    requires n < USIZE_LIMIT
    ensures var text := Trim(AsChars(HeaderLine(n) + [NEWLINE]));
            text != "" && ContentLength(text) == Some(n)
  {
    var d := Decimal(n);
    var text := LENGTH_PREFIX + d;
    NumeralIsAscii(n);
    DecimalIsSolid(n);
    assert AsChars(HeaderLine(n) + [NEWLINE]) == "" + (text + "\r\n");
    assert text[0] == 'C' && text[|text| - 1] == d[|d| - 1];
    TrimAround("", text, "\r\n");
    assert text[..15] == LENGTH_NAME;
    assert text[15..] == " " + (d + "");
    TrimAround(" ", d, "");
    ParseDecimal(n);
  }

  // ----- Any header -----

  /** A header line as the reader sees it. */
  function LineText(lossy: Lossy, line: seq<byte>): string { Trim(lossy(line + [NEWLINE])) }

  /** Header lines on the wire. */
  function HeaderBytes(lines: seq<seq<byte>>): seq<byte> {
    if lines == [] then [] else lines[0] + [NEWLINE] + HeaderBytes(lines[1..])
  }

  predicate IsHeader(lossy: Lossy, lines: seq<seq<byte>>) {
    forall i :: 0 <= i < |lines| ==> NEWLINE !in lines[i] && LineText(lossy, lines[i]) != ""
  }

  predicate IsBlankLine(lossy: Lossy, line: seq<byte>) { NEWLINE !in line && LineText(lossy, line) == "" }

  /** The last line that announces a length announces `n`; the others may say whatever they like. */
  ghost predicate Announces(lossy: Lossy, lines: seq<seq<byte>>, n: nat) {
    exists k :: 0 <= k < |lines| && ContentLength(LineText(lossy, lines[k])) == Some(n) && SilentAfter(lossy, lines, k)
  }

  predicate SilentAfter(lossy: Lossy, lines: seq<seq<byte>>, k: int) {
    forall j :: 0 <= j < |lines| && k < j ==> ContentLength(LineText(lossy, lines[j])).None?
  }

  lemma DrainLine(lossy: Lossy, line: seq<byte>, rest: seq<byte>, len: Option<nat>)
    requires NEWLINE !in line && LineText(lossy, line) != ""
    ensures var announced := ContentLength(LineText(lossy, line));
            Drain(lossy, line + [NEWLINE] + rest, len) == Drain(lossy, rest, if announced.Some? then announced else len)
  {
    TakeThroughAt(line, NEWLINE, rest);
    assert (line + [NEWLINE] + rest)[|line + [NEWLINE]|..] == rest;
  }

  lemma {:induction false} DrainSilent(lossy: Lossy, lines: seq<seq<byte>>, rest: seq<byte>, len: Option<nat>)
    requires IsHeader(lossy, lines) && SilentAfter(lossy, lines, -1)
    ensures Drain(lossy, HeaderBytes(lines) + rest, len) == Drain(lossy, rest, len)
    decreases |lines|
  {
    if lines == [] {
      assert HeaderBytes(lines) + rest == rest;
    } else {
      Assoc(lines[0] + [NEWLINE], HeaderBytes(lines[1..]), rest);
      DrainLine(lossy, lines[0], HeaderBytes(lines[1..]) + rest, len);
      HeaderTail(lossy, lines, -1);
      DrainSilent(lossy, lines[1..], rest, len);
    }
  }

  lemma HeaderTail(lossy: Lossy, lines: seq<seq<byte>>, k: int)
    requires lines != [] && IsHeader(lossy, lines) && SilentAfter(lossy, lines, k)
    ensures IsHeader(lossy, lines[1..]) && SilentAfter(lossy, lines[1..], if k < 0 then -1 else k - 1)
  {
    assert forall i :: 0 <= i < |lines[1..]| ==> lines[1..][i] == lines[i + 1];
  }

  /** The reader takes the length from the last line that announces one, and no other line matters. */
  lemma {:induction false} DrainHeader(lossy: Lossy, lines: seq<seq<byte>>, k: nat, rest: seq<byte>, len: Option<nat>)
    requires IsHeader(lossy, lines) && k < |lines| && SilentAfter(lossy, lines, k)
    requires ContentLength(LineText(lossy, lines[k])).Some?
    ensures Drain(lossy, HeaderBytes(lines) + rest, len) == Drain(lossy, rest, ContentLength(LineText(lossy, lines[k])))
    decreases |lines|
  {
    var announced := ContentLength(LineText(lossy, lines[0]));
    Assoc(lines[0] + [NEWLINE], HeaderBytes(lines[1..]), rest);
    DrainLine(lossy, lines[0], HeaderBytes(lines[1..]) + rest, len);
    HeaderTail(lossy, lines, k);
    if k == 0 {
      DrainSilent(lossy, lines[1..], rest, announced);
    } else {
      assert lines[1..][k - 1] == lines[k];
      DrainHeader(lossy, lines[1..], k - 1, rest, if announced.Some? then announced else len);
    }
  }

  lemma DrainBlank(lossy: Lossy, blank: seq<byte>, rest: seq<byte>, len: Option<nat>)
    requires IsBlankLine(lossy, blank)
    ensures Drain(lossy, blank + [NEWLINE] + rest, len) ==
            if len.None? then Drain(lossy, rest, None)
            else if len.value <= |rest| then [rest[..len.value]] + Drain(lossy, rest[len.value..], None)
            else []
  {
    TakeThroughAt(blank, NEWLINE, rest);
    assert (blank + [NEWLINE] + rest)[|blank + [NEWLINE]|..] == rest;
  }

  /** A message as any server may write it: header lines, a blank line, the body. */
  datatype Packet = Packet(header: seq<seq<byte>>, blank: seq<byte>, body: seq<byte>)

  ghost predicate Framed(lossy: Lossy, p: Packet) {
    IsHeader(lossy, p.header) && IsBlankLine(lossy, p.blank) && Announces(lossy, p.header, |p.body|)
  }

  function PacketBytes(p: Packet): seq<byte> { HeaderBytes(p.header) + (p.blank + [NEWLINE] + p.body) }

  /** Whatever other header lines there are, before or after the one with the length, the body is
      delivered and reading goes on behind it. */
  lemma DrainPacket(lossy: Lossy, p: Packet, rest: seq<byte>, len: Option<nat>)
    requires Framed(lossy, p)
    ensures Drain(lossy, PacketBytes(p) + rest, len) == [p.body] + Drain(lossy, rest, None)
  {
    var k :| 0 <= k < |p.header| && ContentLength(LineText(lossy, p.header[k])) == Some(|p.body|) &&
             SilentAfter(lossy, p.header, k);
    var tail := p.blank + [NEWLINE] + p.body;
    Assoc(HeaderBytes(p.header), tail, rest);
    Assoc(p.blank + [NEWLINE], p.body, rest);
    DrainHeader(lossy, p.header, k, tail + rest, len);
    DrainBlank(lossy, p.blank, p.body + rest, Some(|p.body|));
    assert (p.body + rest)[..|p.body|] == p.body && (p.body + rest)[|p.body|..] == rest;
  }

  /** A header that announces no length is skipped with its blank line. */
  lemma DrainUnannounced(lossy: Lossy, lines: seq<seq<byte>>, blank: seq<byte>, rest: seq<byte>)
    requires IsHeader(lossy, lines) && SilentAfter(lossy, lines, -1) && IsBlankLine(lossy, blank)
    ensures Drain(lossy, HeaderBytes(lines) + (blank + [NEWLINE] + rest), None) == Drain(lossy, rest, None)
  {
    DrainSilent(lossy, lines, blank + [NEWLINE] + rest, None);
    DrainBlank(lossy, blank, rest, None);
  }

  function Packets(packets: seq<Packet>): seq<byte> {
    if packets == [] then [] else PacketBytes(packets[0]) + Packets(packets[1..])
  }

  function Bodies(packets: seq<Packet>): (bodies: seq<seq<byte>>)
    ensures |bodies| == |packets| && forall i :: 0 <= i < |bodies| ==> bodies[i] == packets[i].body
  {
    if packets == [] then [] else [packets[0].body] + Bodies(packets[1..])
  }

  /** Round trip: the bodies of any messages come back in order, whatever their headers say besides the
      length, and what follows them is read as if it stood alone. */
  lemma {:induction false} PacketsRoundTrip(lossy: Lossy, packets: seq<Packet>, rest: seq<byte>)
    requires forall i :: 0 <= i < |packets| ==> Framed(lossy, packets[i])
    ensures Drain(lossy, Packets(packets) + rest, None) == Bodies(packets) + Drain(lossy, rest, None)
    decreases |packets|
  {
    if packets == [] {
      assert Packets(packets) + rest == rest;
    } else {
      var tail := Packets(packets[1..]) + rest;
      Assoc(PacketBytes(packets[0]), Packets(packets[1..]), rest);
      DrainPacket(lossy, packets[0], tail, None);
      PacketsRoundTrip(lossy, packets[1..], rest);
      Assoc([packets[0].body], Bodies(packets[1..]), Drain(lossy, rest, None));
    }
  }

  // ----- The frames of the writer -----

  lemma DrainHeaderLine(lossy: Lossy, n: nat, rest: seq<byte>)
    requires AsciiTransparent(lossy) && n < USIZE_LIMIT
    ensures Drain(lossy, HeaderLine(n) + [NEWLINE] + rest, None) == Drain(lossy, rest, Some(n))
  {
    HeaderLineParses(n);
    DrainLine(lossy, HeaderLine(n), rest, None);
  }

  /** A frame of the writer, as a message with a single header line. */
  function Own(body: seq<byte>): Packet { Packet([HeaderLine(|body|)], [13], body) }

  lemma OwnIsFrame(lossy: Lossy, body: seq<byte>)
    requires AsciiTransparent(lossy) && |body| < USIZE_LIMIT
    ensures Framed(lossy, Own(body)) && PacketBytes(Own(body)) == Frame(body)
  {
    var line, blank: seq<byte> := HeaderLine(|body|), [13];
    HeaderLineParses(|body|);
    BlankLine(lossy, [13, NEWLINE]);
    assert blank + [NEWLINE] == [13, NEWLINE];
    assert Own(body).header[0] == line && SilentAfter(lossy, Own(body).header, 0);
    OneHeaderLine(line);
    Assoc(line + [NEWLINE], [13, NEWLINE], body);
  }

  lemma OneHeaderLine(line: seq<byte>)
    ensures HeaderBytes([line]) == line + [NEWLINE]
  {
    assert [line][1..] == [];
    NilRight(line + [NEWLINE]);
  }

  lemma BlankLine(lossy: Lossy, line: seq<byte>)
    requires AsciiTransparent(lossy) && (line == [13, NEWLINE] || line == [13])
    ensures Trim(lossy(line)) == ""
  {
    TrimBlank(AsChars(line));
  }

  lemma TakeBlankLine(rest: seq<byte>)
    ensures TakeThrough([13, NEWLINE] + rest, NEWLINE) == [13, NEWLINE]
  {
    TakeThroughAt([13], NEWLINE, rest);
    assert [13] + [NEWLINE] == [13, NEWLINE];
  }

  lemma DrainBlankLine(lossy: Lossy, n: nat, rest: seq<byte>)
    requires AsciiTransparent(lossy)
    ensures Drain(lossy, [13, NEWLINE] + rest, Some(n)) ==
            if n <= |rest| then [rest[..n]] + Drain(lossy, rest[n..], None) else []
  {
    var line: seq<byte> := [13, NEWLINE];
    TakeBlankLine(rest);
    BlankLine(lossy, line);
    assert (line + rest)[|line|..] == rest;
  }

  /** A framed message is delivered, and reading goes on after it. */
  lemma DrainFrame(lossy: Lossy, body: seq<byte>, rest: seq<byte>)
    requires AsciiTransparent(lossy) && |body| < USIZE_LIMIT
    ensures Drain(lossy, Frame(body) + rest, None) == [body] + Drain(lossy, rest, None)
  {
    OwnIsFrame(lossy, body);
    DrainPacket(lossy, Own(body), rest, None);
  }

  function Frames(bodies: seq<seq<byte>>): seq<byte> {
    if bodies == [] then [] else Frame(bodies[0]) + Frames(bodies[1..])
  }

  /** Round trip: any bodies, whatever bytes they hold, come back in order, and what follows them is
      read as if it stood alone. */
  lemma {:induction false} FramesRoundTrip(lossy: Lossy, bodies: seq<seq<byte>>, rest: seq<byte>)
    requires AsciiTransparent(lossy) && forall i :: 0 <= i < |bodies| ==> |bodies[i]| < USIZE_LIMIT
    ensures Drain(lossy, Frames(bodies) + rest, None) == bodies + Drain(lossy, rest, None)
    decreases |bodies|
  {
    if bodies == [] {
      assert Frames(bodies) + rest == rest;
    } else {
      var tail := Frames(bodies[1..]) + rest;
      Assoc(Frame(bodies[0]), Frames(bodies[1..]), rest);
      DrainFrame(lossy, bodies[0], tail);
      FramesRoundTrip(lossy, bodies[1..], rest);
      Assoc([bodies[0]], bodies[1..], Drain(lossy, rest, None));
      assert [bodies[0]] + bodies[1..] == bodies;
    }
  }

  /** A stream that stops inside a frame delivers nothing of it; the one exception is an empty body
      cut just before its last header byte, which is delivered. */
  lemma DrainCut(lossy: Lossy, body: seq<byte>, k: nat)
    requires AsciiTransparent(lossy) && |body| < USIZE_LIMIT && k < |Frame(body)|
    ensures Drain(lossy, Frame(body)[..k], None) == if body == [] && k == |Frame(body)| - 1 then [[]] else []
  {
    var n, a := |body|, HeaderLine(|body|);
    var t := Frame(body)[..k];
    if k == 0 {
    } else if k <= |a| {
      assert t == a[..k];
      CutInLine(lossy, n, k);
    } else if k == |a| + 1 {
      assert t == a + [NEWLINE] + [];
      DrainHeaderLine(lossy, n, []);
    } else if k == |a| + 2 {
      assert t == a + [NEWLINE] + [13];
      DrainHeaderLine(lossy, n, [13]);
      CutInBlank(lossy, n);
    } else {
      var part := body[..k - |a| - 3];
      assert t == a + [NEWLINE] + ([13, NEWLINE] + part);
      DrainHeaderLine(lossy, n, [13, NEWLINE] + part);
      DrainBlankLine(lossy, n, part);
    }
  }

  lemma CutInLine(lossy: Lossy, n: nat, k: nat)
    requires AsciiTransparent(lossy) && 0 < k <= |HeaderLine(n)|
    ensures Drain(lossy, HeaderLine(n)[..k], None) == []
  {
    var t := HeaderLine(n)[..k];
    TakeThroughAll(t, NEWLINE);
    NumeralIsAscii(n);
    assert AsChars(t)[0] == 'C';
    TrimKeepsFirst(AsChars(t));
  }

  lemma CutInBlank(lossy: Lossy, n: nat)
    requires AsciiTransparent(lossy)
    ensures Drain(lossy, [13], Some(n)) == if n == 0 then [[]] else []
  {
    var line: seq<byte> := [13];
    TakeThroughAll(line, NEWLINE);
    BlankLine(lossy, line);
    assert line[1..] == [];
  }

  /** End to end: whatever the pieces in which the messages arrive, and whatever their headers say
      besides the length, the reader delivers exactly the bodies, in order. */
  method Deliver(packets: seq<Packet>, pieces: seq<seq<byte>>, lossy: Lossy) returns (delivered: seq<seq<byte>>)
    requires forall i :: 0 <= i < |packets| ==> Framed(lossy, packets[i])
    requires Join(pieces) == Packets(packets) && forall i :: 0 <= i < |pieces| ==> pieces[i] != []
    ensures delivered == Bodies(packets)
  {
    var source := new ByteSource(pieces);
    delivered := ReaderTask(source, lossy);
    PacketsRoundTrip(lossy, packets, []);
    NilRight(Packets(packets));
    NilRight(Bodies(packets));
  }

  // ----- What a length may look like -----

  function Zeros(n: nat): (s: string)
    ensures |s| == n && AllDigits(s)
  {
    if n == 0 then "" else Zeros(n - 1) + "0"
  }

  lemma {:induction false} ZerosCount(n: nat, digits: string)
    requires AllDigits(digits)
    ensures AllDigits(Zeros(n) + digits) && DigitsValue(Zeros(n) + digits) == DigitsValue(digits)
    decreases n + |digits|
  {
    if digits == "" {
      NilRight(Zeros(n));
      if n > 0 {
        ZerosCount(n - 1, "");
        NilRight(Zeros(n - 1));
        assert Zeros(n)[..n - 1] == Zeros(n - 1);
      }
    } else {
      var k := |digits| - 1;
      ZerosCount(n, digits[..k]);
      assert (Zeros(n) + digits)[..n + k] == Zeros(n) + digits[..k];
    }
  }

  /** Every numeral is its value in decimal behind some zeros. */
  lemma {:induction false} DigitsCanonical(digits: string) returns (zeros: nat)
    requires digits != "" && AllDigits(digits)
    ensures digits == Zeros(zeros) + Decimal(DigitsValue(digits))
  {
    var k := |digits| - 1;
    TakeNext(digits, k);
    TakeAll(digits);
    if k == 0 {
      zeros := 0;
      OneDigit(digits);
    } else {
      zeros := DigitsCanonical(digits[..k]);
      var value := DigitsValue(digits[..k]);
      NextDigit(zeros, value, digits[k]);
      zeros := if value == 0 then zeros + 1 else zeros;
    }
  }

  lemma OneDigit(digits: string)
    requires |digits| == 1 && AllDigits(digits)
    ensures digits == Zeros(0) + Decimal(DigitsValue(digits))
  {
    assert digits[..0] == "";
  }

  lemma NextDigit(zeros: nat, value: nat, c: char)
    requires IsDigit(c)
    ensures Zeros(zeros) + Decimal(value) + [c] ==
            Zeros(if value == 0 then zeros + 1 else zeros) + Decimal(10 * value + (c as int - 48))
  {
    var last := c as int - 48;
    assert Digit(last) == c;
    if value == 0 {
      assert Decimal(value) == "0";
    } else {
      assert (10 * value + last) / 10 == value && (10 * value + last) % 10 == last;
      Assoc(Zeros(zeros), Decimal(value), [c]);
    }
  }

  /** A length is read from exactly the decimal numerals below 2^64, with any leading zeros and possibly a
      plus sign. */
  lemma ParseUsizeExact(s: string, n: nat)
    ensures ParseUsize(s) == Some(n) <==>
            n < USIZE_LIMIT &&
            exists zeros: nat :: s == Zeros(zeros) + Decimal(n) || s == "+" + (Zeros(zeros) + Decimal(n))
  {
    if ParseUsize(s) == Some(n) {
      var digits := if s[0] == '+' then s[1..] else s;
      var zeros := DigitsCanonical(digits);
      assert s == digits || s == "+" + digits;
    }
    if n < USIZE_LIMIT {
      forall zeros: nat | s == Zeros(zeros) + Decimal(n) || s == "+" + (Zeros(zeros) + Decimal(n))
        ensures ParseUsize(s) == Some(n)
      {
        NumeralParses(s, zeros, n);
      }
    }
  }

  lemma NumeralParses(s: string, zeros: nat, n: nat)
    requires n < USIZE_LIMIT && (s == Zeros(zeros) + Decimal(n) || s == "+" + (Zeros(zeros) + Decimal(n)))
    ensures ParseUsize(s) == Some(n)
  {
    var digits := Zeros(zeros) + Decimal(n);
    ZerosCount(zeros, Decimal(n));
    DecimalRoundTrip(n);
    assert IsDigit(digits[0]);
    if s != digits {
      assert s[1..] == digits;
    }
  }

  /** Any white space may stand between the name and the numeral. */
  lemma LengthForms(space: string, numeral: string, n: nat)
    requires IsBlank(space) && IsSolid(numeral) && ParseUsize(numeral) == Some(n)
    ensures ContentLength("Content-Length:" + (space + numeral)) == Some(n)
  {
    var line := LENGTH_NAME + (space + numeral);
    assert line[|LENGTH_NAME|..] == space + numeral;
    NilRight(numeral);
    TrimAround(space, numeral, "");
  }
}

/** The message that is submitted: what is attached, each on a line of its own, and the body. */
module PasteMessage {
  import opened Sequences
  import opened Text
  import opened PasteModel

  function KindName(kind: AttachmentKind): string {
    match kind
    case FileKind => "file"
    case FolderKind => "folder"
    case ImageKind => "image"
  }

  function Named(att: Attachment): string { "[" + KindName(att.kind) + ": " + att.path + "]" }

  function AttachmentLines(attachments: seq<Attachment>): string {
    if attachments == [] then ""
    else
      var n := |attachments| - 1;
      AttachmentLines(attachments[..n]) + (Named(attachments[n]) + "\n")
  }

  /** The message for a given body: attachments, if any, come first. */
  function Message(attachments: seq<Attachment>, body: string): string {
    if attachments == [] then body
    else if body == "" then TrimEnd(AttachmentLines(attachments))
    else AttachmentLines(attachments) + "\n" + body
  }

  lemma {:induction false} TrimEndShortens(s: string)
    ensures |TrimEnd(s)| <= |s|
  {
    if s != "" && IsWhitespace(s[|s| - 1]) {
      TrimEndShortens(s[..|s| - 1]);
    }
  }

  /** Different bodies make different messages. */
  lemma MessageTellsBody(attachments: seq<Attachment>, a: string, b: string)
    ensures Message(attachments, a) == Message(attachments, b) <==> a == b
  {
    var lead := AttachmentLines(attachments) + "\n";
    TrimEndShortens(AttachmentLines(attachments));
    if attachments != [] && a != "" && b != "" && lead + a == lead + b {
      assert a == (lead + a)[|lead|..] && b == (lead + b)[|lead|..];
    }
  }

  // ----- Reading a message back -----

  function PathAfter(lead: string, line: string): Option<string> {
    if lead <= line && |lead| < |line| && line[|line| - 1] == ']' then Some(line[|lead|..|line| - 1]) else None
  }

  /** What a line of the message says is attached. */
  function ReadLine(line: string): Option<Attachment> {
    var file, folder, image := PathAfter("[file: ", line), PathAfter("[folder: ", line), PathAfter("[image: ", line);
    if file.Some? then Some(Attachment(FileKind, file.value))
    else if folder.Some? then Some(Attachment(FolderKind, folder.value))
    else if image.Some? then Some(Attachment(ImageKind, image.value))
    else None
  }

  /** The attachments that the lines up to the first empty one name, and all that comes after it. */
  function ReadMessage(s: string): (seq<Attachment>, string)
    decreases |s|
  {
    var n := Find(s, '\n');
    var rest := if n < |s| then s[n + 1..] else "";
    if n == 0 then ([], rest)
    else
      match ReadLine(s[..n])
      case None => ReadMessage(rest)
      case Some(att) => Before(att, ReadMessage(rest))
  }

  function Before(att: Attachment, more: (seq<Attachment>, string)): (seq<Attachment>, string) {
    ([att] + more.0, more.1)
  }

  predicate OneLinePaths(attachments: seq<Attachment>) {
    forall i :: 0 <= i < |attachments| ==> '\n' !in attachments[i].path
  }

  lemma NamedReads(att: Attachment)
    requires '\n' !in att.path
    ensures ReadLine(Named(att)) == Some(att) && '\n' !in Named(att) && Named(att) != ""
  {
    var lead := "[" + KindName(att.kind) + ": ";
    var line := Named(att);
    assert line == lead + att.path + "]";
    assert line[|lead|..|line| - 1] == att.path;
    match att.kind {
      case FileKind => assert lead == "[file: ";
      case FolderKind => assert lead == "[folder: " && line[2] == 'o';
      case ImageKind => assert lead == "[image: " && line[1] == 'i';
    }
  }

  /** One attachment, and whatever comes behind its line. */
  lemma ReadNamed(att: Attachment, rest: string)
    requires '\n' !in att.path
    ensures ReadMessage(Named(att) + "\n" + rest) == Before(att, ReadMessage(rest))
  {
    NamedReads(att);
    FindAt('\n', Named(att), rest);
    CutAt('\n', Named(att), rest);
  }

  lemma ReadLast(att: Attachment)
    requires '\n' !in att.path
    ensures ReadMessage(Named(att)) == ([att], "")
  {
    NamedReads(att);
    FindAt('\n', Named(att), "");
    TakeAll(Named(att));
    NilRight([att]);
    assert ReadMessage("") == ([], "");
  }

  /** The lines of the attachments, and whatever comes behind them. */
  lemma {:induction false} ReadLines(attachments: seq<Attachment>, tail: string)
    requires OneLinePaths(attachments)
    ensures var more := ReadMessage(tail);
            ReadMessage(AttachmentLines(attachments) + tail) == (attachments + more.0, more.1)
    decreases |attachments|
  {
    if attachments == [] {
      assert AttachmentLines(attachments) + tail == tail;
      assert attachments + ReadMessage(tail).0 == ReadMessage(tail).0;
    } else {
      var n := |attachments| - 1;
      var last, before := attachments[n], attachments[..n];
      Assoc(AttachmentLines(before), Named(last) + "\n", tail);
      ReadLines(before, Named(last) + "\n" + tail);
      ReadNamed(last, tail);
      TakeNext(attachments, n);
      TakeAll(attachments);
      Assoc(before, [last], ReadMessage(tail).0);
    }
  }

  /** A message with attachments reads back as exactly these, in order, and the body. */
  lemma MessageReads(attachments: seq<Attachment>, body: string)
    requires attachments != [] && OneLinePaths(attachments)
    ensures ReadMessage(Message(attachments, body)) == (attachments, body)
  {
    if body == "" {
      BareMessageReads(attachments);
    } else {
      Assoc(AttachmentLines(attachments), "\n", body);
      ReadLines(attachments, "\n" + body);
      EmptyLineFirst(body);
      NilRight(attachments);
    }
  }

  lemma EmptyLineFirst(body: string)
    ensures ReadMessage("\n" + body) == ([], body)
  {
    assert ("\n" + body)[0] == '\n' && ("\n" + body)[1..] == body;
  }

  lemma BareMessageReads(attachments: seq<Attachment>)
    requires attachments != [] && OneLinePaths(attachments)
    ensures ReadMessage(TrimEnd(AttachmentLines(attachments))) == (attachments, "")
  {
    var n := |attachments| - 1;
    var last, before := attachments[n], attachments[..n];
    BareMessage(attachments);
    ReadLines(before, Named(last));
    ReadLast(last);
    TakeNext(attachments, n);
    TakeAll(attachments);
  }

  lemma TrimLast(s: string)
    requires s != "" && s[|s| - 1] == ']'
    ensures TrimEnd(s + "\n") == s
  {
    assert (s + "\n")[..|s|] == s;
  }

  /** A message with attachments determines both: no other attachments, no other body. */
  lemma MessageTells(a: seq<Attachment>, x: string, b: seq<Attachment>, y: string)
    requires a != [] && b != [] && OneLinePaths(a) && OneLinePaths(b)
    ensures Message(a, x) == Message(b, y) <==> a == b && x == y
  {
    MessageReads(a, x);
    MessageReads(b, y);
  }

  lemma {:induction false} LinesGrow(attachments: seq<Attachment>, i: nat)
    requires i <= |attachments|
    ensures AttachmentLines(attachments[..i]) <= AttachmentLines(attachments)
    decreases |attachments|
  {
    var n := |attachments| - 1;
    if i == |attachments| {
      TakeAll(attachments);
    } else {
      LinesGrow(attachments[..n], i);
      assert attachments[..n][..i] == attachments[..i];
    }
  }

  lemma LinesUpTo(attachments: seq<Attachment>, i: nat)
    requires i < |attachments|
    ensures AttachmentLines(attachments[..i + 1]) == AttachmentLines(attachments[..i]) + Named(attachments[i]) + "\n"
  {
    var a := attachments[..i + 1];
    assert a[..i] == attachments[..i] && a[i] == attachments[i];
    Assoc(AttachmentLines(attachments[..i]), Named(attachments[i]), "\n");
  }

  lemma BareMessage(attachments: seq<Attachment>)
    requires attachments != []
    ensures var n := |attachments| - 1;
            Message(attachments, "") == AttachmentLines(attachments[..n]) + Named(attachments[n])
  {
    var n := |attachments| - 1;
    LinesUpTo(attachments, n);
    TakeAll(attachments);
    TrimLast(AttachmentLines(attachments[..n]) + Named(attachments[n]));
  }

  lemma PrefixChain(a: string, b: string, c: string, d: string)
    requires a + b <= c
    ensures a <= c + d
  {
    assert (c + d)[..|a|] == (a + b)[..|a|] == a;
  }

  /** Whatever the paths hold, every attachment is named in the message, right behind those before it. */
  lemma NamesEach(attachments: seq<Attachment>, body: string, i: nat)
    requires i < |attachments|
    ensures AttachmentLines(attachments[..i]) + Named(attachments[i]) <= Message(attachments, body)
  {
    var front, name := AttachmentLines(attachments[..i]), Named(attachments[i]);
    if body == "" {
      NamesBare(attachments, i);
    } else {
      LinesUpTo(attachments, i);
      LinesGrow(attachments, i + 1);
      Assoc(AttachmentLines(attachments), "\n", body);
      PrefixChain(front + name, "\n", AttachmentLines(attachments), "\n" + body);
    }
  }

  lemma NamesBare(attachments: seq<Attachment>, i: nat)
    requires i < |attachments|
    ensures AttachmentLines(attachments[..i]) + Named(attachments[i]) <= Message(attachments, "")
  {
    var n := |attachments| - 1;
    BareMessage(attachments);
    NamedBefore(attachments, i, n);
  }

  lemma NamedBefore(attachments: seq<Attachment>, i: nat, n: nat)
    requires i <= n < |attachments|
    ensures AttachmentLines(attachments[..i]) + Named(attachments[i]) <=
            AttachmentLines(attachments[..n]) + Named(attachments[n])
  {
    if i < n {
      LinesUpTo(attachments, i);
      LinesGrow(attachments[..n], i + 1);
      TakeTwice(attachments, i + 1, n);
      PrefixChain(AttachmentLines(attachments[..i]) + Named(attachments[i]), "\n", AttachmentLines(attachments[..n]),
                  Named(attachments[n]));
    }
  }

  lemma TakeTwice<T>(s: seq<T>, i: nat, n: nat)
    requires i <= n <= |s|
    ensures s[..n][..i] == s[..i]
  {
  }
}

/** The card printers, each appending to a shared buffer (internal/xfer/encode.go). What they print is `Wire` of
    `XferCards`: the words of the line, one blank before each but the first, a newline, and the payload if there is one. */
module XferEncode {
  import opened Decimal
  import opened FossilText
  import opened Words
  import opened XferCards

  /** bytes.Buffer */
  class Buffer {
    var buf: string

    constructor ()
      ensures buf == ""
    {
      buf := "";
    }

    method WriteString(s: string)
      modifies this
      ensures buf == old(buf) + s
    {
      buf := buf + s;
    }

    /** A blank and a word, behind a first word and others. */
    method WriteWord(word: string, ghost first: string, ghost others: seq<string>)
      requires buf == Line(first, others)
      modifies this
      ensures buf == Line(first, others + [word])
    {
      assert (others + [word])[..|others|] == others;
      buf := buf + " " + word;
    }

    /** Fprintf of words with blanks between them. */
    method WriteWords(words: seq<string>, ghost first: string)
      requires buf == Line(first, [])
      modifies this
      ensures buf == Line(first, words)
    {
      for i := 0 to |words|
        invariant buf == Line(first, words[..i])
      {
        assert words[..i + 1] == words[..i] + [words[i]];
        WriteWord(words[i], first, words[..i]);
      }
      assert words[..|words|] == words;
    }
  }

  /** The buffer with a card printed behind what it held. */
  ghost predicate Printed(before: string, after: string, c: Card, z: Zlib) {
    after == Line(before + Command(c), Args(c, z)) + "\n" + Body(c, z)
  }

  lemma {:induction false} LineShift(before: string, first: string, others: seq<string>)
    ensures Line(before + first, others) == before + Line(first, others)
  {
    if others != [] {
      LineShift(before, first, others[..|others| - 1]);
    }
  }

  lemma PrintedIsWire(before: string, after: string, c: Card, z: Zlib)
    requires Printed(before, after, c, z)
    ensures after == before + Wire(c, z)
  {
    hide Line, Args, Body, Command;
    LineShift(before, Command(c), Args(c, z));
  }

  // ----- cards without payload -----

  method EncodeIGot(w: Buffer, c: Card, z: Zlib)
    requires c.IGotCard?
    modifies w
    ensures Printed(old(w.buf), w.buf, c, z)
  {
    w.WriteString("igot");
    ghost var first := w.buf;
    w.WriteWord(c.uuid, first, []);
    if c.isPrivate {
      w.WriteWord("1", first, [c.uuid]);
    }
    w.WriteString("\n");
  }

  method EncodeGimme(w: Buffer, c: Card, z: Zlib)
    requires c.GimmeCard?
    modifies w
    ensures Printed(old(w.buf), w.buf, c, z)
  {
    w.WriteString("gimme");
    ghost var first := w.buf;
    w.WriteWords([c.uuid], first);
    w.WriteString("\n");
  }

  method EncodePush(w: Buffer, c: Card, z: Zlib)
    requires c.PushCard? && c.projectCode != ""
    modifies w
    ensures Printed(old(w.buf), w.buf, c, z)
  {
    w.WriteString("push");
    ghost var first := w.buf;
    w.WriteWord(c.projectCode, first, []);
    if c.serverCode != "" {
      w.WriteWord(c.serverCode, first, [c.projectCode]);
    }
    w.WriteString("\n");
  }

  method EncodePull(w: Buffer, c: Card, z: Zlib)
    requires c.PullCard? && c.projectCode != "" && c.serverCode != ""
    modifies w
    ensures Printed(old(w.buf), w.buf, c, z)
  {
    w.WriteString("pull");
    ghost var first := w.buf;
    w.WriteWords([c.projectCode, c.serverCode], first);
    w.WriteString("\n");
  }

  method EncodeCookie(w: Buffer, c: Card, z: Zlib)
    requires c.CookieCard?
    modifies w
    ensures Printed(old(w.buf), w.buf, c, z)
  {
    w.WriteString("cookie");
    ghost var first := w.buf;
    w.WriteWords([c.value], first);
    w.WriteString("\n");
  }

  method EncodeReqConfig(w: Buffer, c: Card, z: Zlib)
    requires c.ReqConfigCard?
    modifies w
    ensures Printed(old(w.buf), w.buf, c, z)
  {
    w.WriteString("reqconfig");
    ghost var first := w.buf;
    w.WriteWords([c.name], first);
    w.WriteString("\n");
  }

  method EncodePrivate(w: Buffer, c: Card, z: Zlib)
    requires c.PrivateCard?
    modifies w
    ensures Printed(old(w.buf), w.buf, c, z)
  {
    w.WriteString("private");
    ghost var first := w.buf;
    w.WriteString("\n");
  }

  method EncodeClone(w: Buffer, c: Card, z: Zlib)
    requires c.CloneCard?
    modifies w
    ensures Printed(old(w.buf), w.buf, c, z)
  {
    w.WriteString("clone");
    ghost var first := w.buf;
    if c.version != 0 || c.seqNo != 0 {
      w.WriteWords([IntToString(c.version), IntToString(c.seqNo)], first);
    }
    w.WriteString("\n");
  }

  method EncodeCloneSeqNo(w: Buffer, c: Card, z: Zlib)
    requires c.CloneSeqNoCard?
    modifies w
    ensures Printed(old(w.buf), w.buf, c, z)
  {
    w.WriteString("clone_seqno");
    ghost var first := w.buf;
    w.WriteWords([IntToString(c.seqNo)], first);
    w.WriteString("\n");
  }

  method EncodeUVGimme(w: Buffer, c: Card, z: Zlib)
    requires c.UVGimmeCard?
    modifies w
    ensures Printed(old(w.buf), w.buf, c, z)
  {
    w.WriteString("uvgimme");
    ghost var first := w.buf;
    w.WriteWords([c.name], first);
    w.WriteString("\n");
  }

  method EncodePragma(w: Buffer, c: Card, z: Zlib)
    requires c.PragmaCard?
    modifies w
    ensures Printed(old(w.buf), w.buf, c, z)
  {
    w.WriteString("pragma");
    ghost var first := w.buf;
    w.WriteWord(c.name, first, []);
    for i := 0 to |c.values|
      invariant w.buf == Line(first, [c.name] + c.values[..i])
    {
      assert [c.name] + c.values[..i + 1] == [c.name] + c.values[..i] + [c.values[i]];
      w.WriteWord(c.values[i], first, [c.name] + c.values[..i]);
    }
    assert c.values[..|c.values|] == c.values;
    w.WriteString("\n");
  }

  method EncodeLogin(w: Buffer, c: Card, z: Zlib)
    requires c.LoginCard?
    modifies w
    ensures Printed(old(w.buf), w.buf, c, z)
  {
    w.WriteString("login");
    ghost var first := w.buf;
    var user := FossilEncode(c.user);
    w.WriteWords([user, c.nonce, c.signature], first);
    w.WriteString("\n");
  }

  method EncodeError(w: Buffer, c: Card, z: Zlib)
    requires c.ErrorCard?
    modifies w
    ensures Printed(old(w.buf), w.buf, c, z)
  {
    w.WriteString("error");
    ghost var first := w.buf;
    var message := FossilEncode(c.message);
    w.WriteWord(message, first, []);
    w.WriteString("\n");
  }

  method EncodeMessage(w: Buffer, c: Card, z: Zlib)
    requires c.MessageCard?
    modifies w
    ensures Printed(old(w.buf), w.buf, c, z)
  {
    w.WriteString("message");
    ghost var first := w.buf;
    var message := FossilEncode(c.message);
    w.WriteWord(message, first, []);
    w.WriteString("\n");
  }

  method EncodeUVIGot(w: Buffer, c: Card, z: Zlib)
    requires c.UVIGotCard?
    modifies w
    ensures Printed(old(w.buf), w.buf, c, z)
  {
    w.WriteString("uvigot");
    ghost var first := w.buf;
    w.WriteWords([c.name, IntToString(c.mtime), c.hash, IntToString(c.size)], first);
    w.WriteString("\n");
  }

  method EncodeXIGot(w: Buffer, c: Card, z: Zlib)
    requires c.XIGotCard? && c.table != "" && c.pkHash != ""
    modifies w
    ensures Printed(old(w.buf), w.buf, c, z)
  {
    w.WriteString("xigot");
    ghost var first := w.buf;
    w.WriteWords([c.table, c.pkHash, IntToString(c.mtime)], first);
    w.WriteString("\n");
  }

  method EncodeXGimme(w: Buffer, c: Card, z: Zlib)
    requires c.XGimmeCard? && c.table != "" && c.pkHash != ""
    modifies w
    ensures Printed(old(w.buf), w.buf, c, z)
  {
    w.WriteString("xgimme");
    ghost var first := w.buf;
    w.WriteWords([c.table, c.pkHash], first);
    w.WriteString("\n");
  }

  method EncodeUnknown(w: Buffer, c: Card, z: Zlib)
    requires c.UnknownCard?
    modifies w
    ensures Printed(old(w.buf), w.buf, c, z)
  {
    w.WriteString(c.command);
    w.WriteWords(c.args, w.buf);
    w.WriteString("\n");
  }

  // ----- cards with a payload -----

  /** No newline follows the content. */
  method EncodeFile(w: Buffer, c: Card, z: Zlib)
    requires c.FileCard?
    modifies w
    ensures Printed(old(w.buf), w.buf, c, z)
  {
    w.WriteString("file");
    ghost var first := w.buf;
    w.WriteWord(c.uuid, first, []);
    ghost var others := [c.uuid];
    if c.deltaSrc != "" {
      w.WriteWord(c.deltaSrc, first, others);
      others := others + [c.deltaSrc];
    }
    w.WriteWord(IntToString(|c.content|), first, others);
    w.WriteString("\n");
    w.WriteString(c.content);
  }

  method EncodeCFile(w: Buffer, c: Card, z: Zlib)
    requires c.CFileCard?
    modifies w
    ensures Printed(old(w.buf), w.buf, c, z)
  {
    hide IntToString, Line;
    var zbuf := z.compress(c.content);
    w.WriteString("cfile");
    ghost var first, usize, csize := w.buf, IntToString(|c.content|), IntToString(|zbuf|);
    FirstAlone(first);
    w.WriteWord(c.uuid, first, []);
    ghost var others := [] + [c.uuid];
    if c.deltaSrc != "" {
      w.WriteWord(c.deltaSrc, first, others);
      others := others + [c.deltaSrc];
    }
    w.WriteWord(IntToString(|c.content|), first, others);
    w.WriteWord(IntToString(|zbuf|), first, others + [usize]);
    assert Args(c, z) == others + [usize] + [csize];
    w.WriteString("\n");
    w.WriteString(zbuf);
  }

  lemma FirstAlone(first: string)
    ensures Line(first, []) == first
  {
  }

  /** A newline follows the content. */
  method EncodeConfig(w: Buffer, c: Card, z: Zlib)
    requires c.ConfigCard?
    modifies w
    ensures Printed(old(w.buf), w.buf, c, z)
  {
    w.WriteString("config");
    ghost var first := w.buf;
    w.WriteWords([c.name, IntToString(|c.content|)], first);
    w.WriteString("\n");
    ghost var line := w.buf;
    w.WriteString(c.content);
    w.WriteString("\n");
    assert line + c.content + "\n" == line + (c.content + "\n");
  }

  method EncodeUVFile(w: Buffer, c: Card, z: Zlib)
    requires c.UVFileCard?
    modifies w
    ensures Printed(old(w.buf), w.buf, c, z)
  {
    w.WriteString("uvfile");
    ghost var first := w.buf;
    w.WriteWords([c.name, IntToString(c.mtime), c.hash, IntToString(c.size), IntToString(c.flags)], first);
    w.WriteString("\n");
    ghost var line := w.buf;
    if !OmitsContent(c.flags) {
      w.WriteString(c.content);
    }
    assert line + "" == line;
  }

  method EncodeSchema(w: Buffer, c: Card, z: Zlib)
    requires c.SchemaCard?
    modifies w
    ensures Printed(old(w.buf), w.buf, c, z)
  {
    w.WriteString("schema");
    ghost var first := w.buf;
    w.WriteWords([c.table, IntToString(c.version), c.hash, IntToString(c.mtime), IntToString(|c.content|)], first);
    w.WriteString("\n");
    ghost var line := w.buf;
    w.WriteString(c.content);
    w.WriteString("\n");
    assert line + c.content + "\n" == line + (c.content + "\n");
  }

  method EncodeXRow(w: Buffer, c: Card, z: Zlib)
    requires c.XRowCard? && c.table != "" && c.pkHash != ""
    modifies w
    ensures Printed(old(w.buf), w.buf, c, z)
  {
    w.WriteString("xrow");
    ghost var first := w.buf;
    w.WriteWords([c.table, c.pkHash, IntToString(c.mtime), IntToString(|c.content|)], first);
    w.WriteString("\n");
    ghost var line := w.buf;
    w.WriteString(c.content);
    w.WriteString("\n");
    assert line + c.content + "\n" == line + (c.content + "\n");
  }

  method EncodeXDelete(w: Buffer, c: Card, z: Zlib)
    requires c.XDeleteCard? && c.table != "" && c.pkHash != ""
    modifies w
    ensures Printed(old(w.buf), w.buf, c, z)
  {
    w.WriteString("xdelete");
    ghost var first := w.buf;
    w.WriteWords([c.table, c.pkHash, IntToString(c.mtime), IntToString(|c.pkData|)], first);
    w.WriteString("\n");
    ghost var line := w.buf;
    w.WriteString(c.pkData);
    w.WriteString("\n");
    assert line + c.pkData + "\n" == line + (c.pkData + "\n");
  }

  /** What the printers demand of their callers. */
  predicate Printable(c: Card) {
    match c
    case PushCard(_, projectCode) => projectCode != ""
    case PullCard(serverCode, projectCode) => projectCode != "" && serverCode != ""
    case XIGotCard(table, pkHash, _) => table != "" && pkHash != ""
    case XGimmeCard(table, pkHash) => table != "" && pkHash != ""
    case XRowCard(table, pkHash, _, _) => table != "" && pkHash != ""
    case XDeleteCard(table, pkHash, _, _) => table != "" && pkHash != ""
    case _ => true
  }

  /** Every card is printed as the wire format says. */
  method EncodeCard(w: Buffer, c: Card, z: Zlib)
    requires Printable(c)
    modifies w
    ensures w.buf == old(w.buf) + Wire(c, z)
  {
    hide Printed, Wire, Line, Args, Body;
    ghost var before := w.buf;
    match c {
      case IGotCard(_, _) => EncodeIGot(w, c, z);
      case GimmeCard(_) => EncodeGimme(w, c, z);
      case PushCard(_, _) => EncodePush(w, c, z);
      case PullCard(_, _) => EncodePull(w, c, z);
      case CookieCard(_) => EncodeCookie(w, c, z);
      case ReqConfigCard(_) => EncodeReqConfig(w, c, z);
      case PrivateCard => EncodePrivate(w, c, z);
      case CloneCard(_, _) => EncodeClone(w, c, z);
      case CloneSeqNoCard(_) => EncodeCloneSeqNo(w, c, z);
      case UVGimmeCard(_) => EncodeUVGimme(w, c, z);
      case PragmaCard(_, _) => EncodePragma(w, c, z);
      case LoginCard(_, _, _) => EncodeLogin(w, c, z);
      case ErrorCard(_) => EncodeError(w, c, z);
      case MessageCard(_) => EncodeMessage(w, c, z);
      case UVIGotCard(_, _, _, _) => EncodeUVIGot(w, c, z);
      case FileCard(_, _, _) => EncodeFile(w, c, z);
      case CFileCard(_, _, _, _) => EncodeCFile(w, c, z);
      case ConfigCard(_, _) => EncodeConfig(w, c, z);
      case UVFileCard(_, _, _, _, _, _) => EncodeUVFile(w, c, z);
      case SchemaCard(_, _, _, _, _) => EncodeSchema(w, c, z);
      case XIGotCard(_, _, _) => EncodeXIGot(w, c, z);
      case XGimmeCard(_, _) => EncodeXGimme(w, c, z);
      case XRowCard(_, _, _, _) => EncodeXRow(w, c, z);
      case XDeleteCard(_, _, _, _) => EncodeXDelete(w, c, z);
      case UnknownCard(_, _) => EncodeUnknown(w, c, z);
    }
    PrintedIsWire(before, w.buf, c, z);
  }
}

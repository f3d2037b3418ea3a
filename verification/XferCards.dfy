/** The cards of the sync protocol as text: how each is printed and parsed (internal/xfer/encode.go,
    internal/xfer/decode.go). A message is a string of bytes, one character each. */
module XferCards {
  import opened Bytes
  import opened Decimal
  import opened FossilText
  import opened Words
  import opened Reading

  datatype Card =
    | FileCard(uuid: string, deltaSrc: string, content: string)
    | CFileCard(uuid: string, deltaSrc: string, usize: int, content: string)
    | IGotCard(uuid: string, isPrivate: bool)
    | GimmeCard(uuid: string)
    | LoginCard(user: string, nonce: string, signature: string)
    | PushCard(serverCode: string, projectCode: string)
    | PullCard(serverCode: string, projectCode: string)
    | CookieCard(value: string)
    | CloneCard(version: int, seqNo: int)
    | CloneSeqNoCard(seqNo: int)
    | ConfigCard(name: string, content: string)
    | ReqConfigCard(name: string)
    | PrivateCard
    | UVFileCard(name: string, mtime: int, hash: string, size: int, flags: int, content: string)
    | UVGimmeCard(name: string)
    | UVIGotCard(name: string, mtime: int, hash: string, size: int)
    | PragmaCard(name: string, values: seq<string>)
    | ErrorCard(message: string)
    | MessageCard(message: string)
    | SchemaCard(table: string, version: int, hash: string, mtime: int, content: string)
    | XIGotCard(table: string, pkHash: string, mtime: int)
    | XGimmeCard(table: string, pkHash: string)
    | XRowCard(table: string, pkHash: string, mtime: int, content: string)
    | XDeleteCard(table: string, pkHash: string, mtime: int, pkData: string)
    | UnknownCard(command: string, args: seq<string>)

  /** The compression of cfile payloads. */
  datatype Zlib = Zlib(compress: string -> string, decompress: string -> Option<string>)

  const MAX_TABLE_PAYLOAD: int := 64 * 0x10_0000

  /** Deleted, or content omitted: bit 0 or bit 2. */
  predicate OmitsContent(flags: int) { flags % 2 == 1 || (flags / 4) % 2 == 1 }

  // ----- printing -----

  function Command(c: Card): string {
    match c
    case FileCard(_, _, _) => "file"
    case CFileCard(_, _, _, _) => "cfile"
    case IGotCard(_, _) => "igot"
    case GimmeCard(_) => "gimme"
    case LoginCard(_, _, _) => "login"
    case PushCard(_, _) => "push"
    case PullCard(_, _) => "pull"
    case CookieCard(_) => "cookie"
    case CloneCard(_, _) => "clone"
    case CloneSeqNoCard(_) => "clone_seqno"
    case ConfigCard(_, _) => "config"
    case ReqConfigCard(_) => "reqconfig"
    case PrivateCard => "private"
    case UVFileCard(_, _, _, _, _, _) => "uvfile"
    case UVGimmeCard(_) => "uvgimme"
    case UVIGotCard(_, _, _, _) => "uvigot"
    case PragmaCard(_, _) => "pragma"
    case ErrorCard(_) => "error"
    case MessageCard(_) => "message"
    case SchemaCard(_, _, _, _, _) => "schema"
    case XIGotCard(_, _, _) => "xigot"
    case XGimmeCard(_, _) => "xgimme"
    case XRowCard(_, _, _, _) => "xrow"
    case XDeleteCard(_, _, _, _) => "xdelete"
    case UnknownCard(command, _) => command
  }

  function Args(c: Card, z: Zlib): seq<string> {
    match c
    case FileCard(uuid, deltaSrc, content) => [uuid] + Optional(deltaSrc) + [IntToString(|content|)]
    case CFileCard(uuid, deltaSrc, _, content) =>
      [uuid] + Optional(deltaSrc) + [IntToString(|content|), IntToString(|z.compress(content)|)]
    case IGotCard(uuid, isPrivate) => [uuid] + if isPrivate then ["1"] else []
    case GimmeCard(uuid) => [uuid]
    case LoginCard(user, nonce, signature) => [Encoded(user), nonce, signature]
    case PushCard(serverCode, projectCode) => [projectCode] + Optional(serverCode)
    case PullCard(serverCode, projectCode) => [projectCode, serverCode]
    case CookieCard(value) => [value]
    case CloneCard(version, seqNo) => if version == 0 && seqNo == 0 then [] else [IntToString(version), IntToString(seqNo)]
    case CloneSeqNoCard(seqNo) => [IntToString(seqNo)]
    case ConfigCard(name, content) => [name, IntToString(|content|)]
    case ReqConfigCard(name) => [name]
    case PrivateCard => []
    case UVFileCard(name, mtime, hash, size, flags, _) => [name, IntToString(mtime), hash, IntToString(size), IntToString(flags)]
    case UVGimmeCard(name) => [name]
    case UVIGotCard(name, mtime, hash, size) => [name, IntToString(mtime), hash, IntToString(size)]
    case PragmaCard(name, values) => [name] + values
    case ErrorCard(message) => [Encoded(message)]
    case MessageCard(message) => [Encoded(message)]
    case SchemaCard(table, version, hash, mtime, content) =>
      [table, IntToString(version), hash, IntToString(mtime), IntToString(|content|)]
    case XIGotCard(table, pkHash, mtime) => [table, pkHash, IntToString(mtime)]
    case XGimmeCard(table, pkHash) => [table, pkHash]
    case XRowCard(table, pkHash, mtime, content) => [table, pkHash, IntToString(mtime), IntToString(|content|)]
    case XDeleteCard(table, pkHash, mtime, pkData) => [table, pkHash, IntToString(mtime), IntToString(|pkData|)]
    case UnknownCard(_, args) => args
  }

  /** What follows the line: payloads of files come bare, others with a newline. */
  function Body(c: Card, z: Zlib): string {
    match c
    case FileCard(_, _, content) => content
    case CFileCard(_, _, _, content) => z.compress(content)
    case ConfigCard(_, content) => content + "\n"
    case UVFileCard(_, _, _, _, flags, content) => if OmitsContent(flags) then "" else content
    case SchemaCard(_, _, _, _, content) => content + "\n"
    case XRowCard(_, _, _, content) => content + "\n"
    case XDeleteCard(_, _, _, pkData) => pkData + "\n"
    case _ => ""
  }

  function Wire(c: Card, z: Zlib): string { Line(Command(c), Args(c, z)) + "\n" + Body(c, z) }

  // ----- parsing -----

  datatype Outcome = Got(card: Card, rest: string) | Malformed | Panics

  datatype Payload = Taken(content: string, rest: string) | Short | NoBuffer

  /** The next so many characters, unless no buffer can have this size: allocating it panics. */
  function TakePayload(rest: string, size: int): (p: Payload)
    ensures p.Taken? ==> IsEnd(p.rest, rest)
  {
    if !Allocatable(size) then NoBuffer
    else if |rest| < size then Short
    else Taken(rest[..size], rest[size..])
  }

  /** The payload and a newline, if one follows. */
  function TakePayloadLine(rest: string, size: int): (p: Payload)
    ensures p.Taken? ==> IsEnd(p.rest, rest)
  {
    match TakePayload(rest, size)
    case Taken(content, more) => Taken(content, if more != "" && more[0] == '\n' then more[1..] else more)
    case other => other
  }

  function WithPayload(p: Payload, make: string -> Card): (o: Outcome)
    ensures o.Got? ==> p.Taken? && o.rest == p.rest
  {
    match p
    case Taken(content, rest) => Got(make(content), rest)
    case Short => Malformed
    case NoBuffer => Panics
  }

  /** Plain zlib data, or behind a four-byte size. */
  function Inflate(z: Zlib, data: string): Option<string> {
    match z.decompress(data)
    case Some(out) => Some(out)
    case None => if |data| > 4 then z.decompress(data[4..]) else None
  }

  function ParseFile(args: seq<string>, rest: string): (o: Outcome)
    ensures o.Got? ==> IsEnd(o.rest, rest)
  {
    if |args| != 2 && |args| != 3 then Malformed
    else match Atoi(args[|args| - 1])
         case None => Malformed
         case Some(size) => WithPayload(TakePayload(rest, size), content => FileCard(args[0], if |args| == 3 then args[1] else "", content))
  }

  function ParseCFile(args: seq<string>, rest: string, z: Zlib): (o: Outcome)
    ensures o.Got? ==> IsEnd(o.rest, rest)
  {
    if |args| != 3 && |args| != 4 then Malformed
    else
      var deltaSrc := if |args| == 4 then args[1] else "";
      match (Atoi(args[|args| - 2]), Atoi(args[|args| - 1]))
      case (Some(usize), Some(csize)) =>
        (match TakePayload(rest, csize)
         case Short => Malformed
         case NoBuffer => Panics
         case Taken(compressed, more) =>
           match Inflate(z, compressed)
           case None => Malformed
           case Some(content) =>
             if deltaSrc == "" && |content| != usize then Malformed else Got(CFileCard(args[0], deltaSrc, usize, content), more))
      case _ => Malformed
  }

  function ParseConfig(args: seq<string>, rest: string): (o: Outcome)
    ensures o.Got? ==> IsEnd(o.rest, rest)
  {
    if |args| != 2 then Malformed
    else match Atoi(args[1])
         case None => Malformed
         case Some(size) => WithPayload(TakePayloadLine(rest, size), content => ConfigCard(args[0], content))
  }

  function ParseUVFile(args: seq<string>, rest: string): (o: Outcome)
    ensures o.Got? ==> IsEnd(o.rest, rest)
  {
    if |args| != 5 then Malformed
    else match (Atoi(args[1]), Atoi(args[3]), Atoi(args[4]))
         case (Some(mtime), Some(size), Some(flags)) =>
           if OmitsContent(flags) then Got(UVFileCard(args[0], mtime, args[2], size, flags, ""), rest)
           else WithPayload(TakePayload(rest, size), content => UVFileCard(args[0], mtime, args[2], size, flags, content))
         case _ => Malformed
  }

  function ParseSchema(args: seq<string>, rest: string): (o: Outcome)
    ensures o.Got? ==> IsEnd(o.rest, rest)
  {
    if |args| != 5 then Malformed
    else match (Atoi(args[1]), Atoi(args[3]), Atoi(args[4]))
         case (Some(version), Some(mtime), Some(size)) =>
           if size < 0 || size > MAX_TABLE_PAYLOAD then Malformed
           else WithPayload(TakePayloadLine(rest, size), content => SchemaCard(args[0], version, args[2], mtime, content))
         case _ => Malformed
  }

  function ParseXRow(args: seq<string>, rest: string): (o: Outcome)
    ensures o.Got? ==> IsEnd(o.rest, rest)
  {
    if |args| != 4 then Malformed
    else match (Atoi(args[2]), Atoi(args[3]))
         case (Some(mtime), Some(size)) =>
           if size < 0 || size > MAX_TABLE_PAYLOAD then Malformed
           else WithPayload(TakePayloadLine(rest, size), content => XRowCard(args[0], args[1], mtime, content))
         case _ => Malformed
  }

  function ParseXDelete(args: seq<string>, rest: string): (o: Outcome)
    ensures o.Got? ==> IsEnd(o.rest, rest)
  {
    if |args| != 4 then Malformed
    else match (Atoi(args[2]), Atoi(args[3]))
         case (Some(mtime), Some(size)) =>
           if size < 0 || size > MAX_TABLE_PAYLOAD then Malformed
           else WithPayload(TakePayloadLine(rest, size), content => XDeleteCard(args[0], args[1], mtime, content))
         case _ => Malformed
  }

  function ParseClone(args: seq<string>, rest: string): (o: Outcome)
    ensures o.Got? ==> IsEnd(o.rest, rest)
  {
    if |args| == 0 then Got(CloneCard(0, 0), rest)
    else if |args| != 2 then Malformed
    else match (Atoi(args[0]), Atoi(args[1]))
         case (Some(version), Some(seqNo)) => Got(CloneCard(version, seqNo), rest)
         case _ => Malformed
  }

  function ParseCloneSeqNo(args: seq<string>, rest: string): (o: Outcome)
    ensures o.Got? ==> IsEnd(o.rest, rest)
  {
    if |args| != 1 then Malformed
    else match Atoi(args[0])
         case None => Malformed
         case Some(seqNo) => Got(CloneSeqNoCard(seqNo), rest)
  }

  function ParseUVIGot(args: seq<string>, rest: string): (o: Outcome)
    ensures o.Got? ==> IsEnd(o.rest, rest)
  {
    if |args| != 4 then Malformed
    else match (Atoi(args[1]), Atoi(args[3]))
         case (Some(mtime), Some(size)) => Got(UVIGotCard(args[0], mtime, args[2], size), rest)
         case _ => Malformed
  }

  function ParseXIGot(args: seq<string>, rest: string): (o: Outcome)
    ensures o.Got? ==> IsEnd(o.rest, rest)
  {
    if |args| != 3 then Malformed
    else match Atoi(args[2])
         case None => Malformed
         case Some(mtime) => Got(XIGotCard(args[0], args[1], mtime), rest)
  }

  function One(args: seq<string>, rest: string, make: string -> Card): (o: Outcome)
    ensures o.Got? ==> IsEnd(o.rest, rest)
  {
    if |args| == 1 then Got(make(args[0]), rest) else Malformed
  }

  datatype Kind =
    | IGot | Gimme | Push | Pull | Cookie | ReqConfig | Private | Clone | CloneSeqNo | UVGimme | Pragma | Login
    | Error | Message | UVIGot | File | CFile | Config | UVFile | Schema | XIGot | XGimme | XRow | XDelete | Unknown

  /** The card that the first word of a line announces. */
  function KindOf(cmd: string): Kind {
    if cmd == "igot" then IGot
    else if cmd == "gimme" then Gimme
    else if cmd == "push" then Push
    else if cmd == "pull" then Pull
    else if cmd == "cookie" then Cookie
    else if cmd == "reqconfig" then ReqConfig
    else if cmd == "private" then Private
    else if cmd == "clone" then Clone
    else LaterKindOf(cmd)
  }

  function LaterKindOf(cmd: string): Kind {
    if cmd == "clone_seqno" then CloneSeqNo
    else if cmd == "uvgimme" then UVGimme
    else if cmd == "pragma" then Pragma
    else if cmd == "login" then Login
    else if cmd == "error" then Error
    else if cmd == "message" then Message
    else if cmd == "uvigot" then UVIGot
    else if cmd == "file" then File
    else LastKindOf(cmd)
  }

  function LastKindOf(cmd: string): Kind {
    if cmd == "cfile" then CFile
    else if cmd == "config" then Config
    else if cmd == "uvfile" then UVFile
    else if cmd == "schema" then Schema
    else if cmd == "xigot" then XIGot
    else if cmd == "xgimme" then XGimme
    else if cmd == "xrow" then XRow
    else if cmd == "xdelete" then XDelete
    else Unknown
  }

  /** Dispatch on the first word of a line. */
  function ParseFields(cmd: string, args: seq<string>, rest: string, z: Zlib): (o: Outcome)
    ensures o.Got? ==> IsEnd(o.rest, rest)
  {
    match KindOf(cmd)
    case IGot => if 1 <= |args| <= 2 then Got(IGotCard(args[0], |args| == 2 && args[1] == "1"), rest) else Malformed
    case Gimme => One(args, rest, u => GimmeCard(u))
    case Push =>
      if |args| == 1 then Got(PushCard("", args[0]), rest)
      else if |args| == 2 then Got(PushCard(args[1], args[0]), rest) else Malformed
    case Pull => if |args| == 2 then Got(PullCard(args[1], args[0]), rest) else Malformed
    case Cookie => One(args, rest, v => CookieCard(v))
    case ReqConfig => One(args, rest, n => ReqConfigCard(n))
    case Private => if |args| == 0 then Got(PrivateCard, rest) else Malformed
    case Clone => ParseClone(args, rest)
    case CloneSeqNo => ParseCloneSeqNo(args, rest)
    case UVGimme => One(args, rest, n => UVGimmeCard(n))
    case Pragma => if |args| >= 1 then Got(PragmaCard(args[0], args[1..]), rest) else Malformed
    case Login => if |args| == 3 then Got(LoginCard(Decoded(args[0]), args[1], args[2]), rest) else Malformed
    case Error => if |args| == 1 then Got(ErrorCard(Decoded(args[0])), rest) else Malformed
    case Message => if |args| == 1 then Got(MessageCard(Decoded(args[0])), rest) else Malformed
    case UVIGot => ParseUVIGot(args, rest)
    case File => ParseFile(args, rest)
    case CFile => ParseCFile(args, rest, z)
    case Config => ParseConfig(args, rest)
    case UVFile => ParseUVFile(args, rest)
    case Schema => ParseSchema(args, rest)
    case XIGot => ParseXIGot(args, rest)
    case XGimme => if |args| == 2 then Got(XGimmeCard(args[0], args[1]), rest) else Malformed
    case XRow => ParseXRow(args, rest)
    case XDelete => ParseXDelete(args, rest)
    case Unknown => Got(UnknownCard(cmd, args), rest)
  }

  // ----- round trip of one card -----

  ghost predicate InRange(n: int) { MIN_INT64 <= n <= MAX_INT64 }

  /** What every parsed card is like: words without white space, numbers of 64 bits, contents that fit a slice. */
  ghost predicate Plain(c: Card) {
    match c
    case FileCard(uuid, deltaSrc, content) => Token(uuid) && NoSpace(deltaSrc) && Allocatable(|content|)
    case CFileCard(uuid, deltaSrc, usize, _) => Token(uuid) && NoSpace(deltaSrc) && InRange(usize)
    case IGotCard(uuid, _) => Token(uuid)
    case GimmeCard(uuid) => Token(uuid)
    case LoginCard(user, nonce, signature) => Escapable(user) && Token(nonce) && Token(signature)
    case PushCard(serverCode, projectCode) => Token(projectCode) && NoSpace(serverCode)
    case PullCard(serverCode, projectCode) => Token(projectCode) && Token(serverCode)
    case CookieCard(value) => Token(value)
    case CloneCard(version, seqNo) => InRange(version) && InRange(seqNo)
    case CloneSeqNoCard(seqNo) => InRange(seqNo)
    case ConfigCard(name, content) => Token(name) && Allocatable(|content|)
    case ReqConfigCard(name) => Token(name)
    case PrivateCard => true
    case UVFileCard(name, mtime, hash, size, flags, content) =>
      Token(name) && Token(hash) && InRange(mtime) && InRange(size) && InRange(flags)
      && if OmitsContent(flags) then content == "" else size == |content| && Allocatable(size)
    case UVGimmeCard(name) => Token(name)
    case UVIGotCard(name, mtime, hash, size) => Token(name) && Token(hash) && InRange(mtime) && InRange(size)
    case PragmaCard(name, values) => Token(name) && forall v :: v in values ==> Token(v)
    case ErrorCard(message) => Escapable(message)
    case MessageCard(message) => Escapable(message)
    case SchemaCard(table, version, hash, mtime, content) =>
      Token(table) && Token(hash) && InRange(version) && InRange(mtime) && |content| <= MAX_TABLE_PAYLOAD
    case XIGotCard(table, pkHash, mtime) => Token(table) && Token(pkHash) && InRange(mtime)
    case XGimmeCard(table, pkHash) => Token(table) && Token(pkHash)
    case XRowCard(table, pkHash, mtime, content) =>
      Token(table) && Token(pkHash) && InRange(mtime) && |content| <= MAX_TABLE_PAYLOAD
    case XDeleteCard(table, pkHash, mtime, pkData) =>
      Token(table) && Token(pkHash) && InRange(mtime) && |pkData| <= MAX_TABLE_PAYLOAD
    case UnknownCard(command, args) => Token(command) && KindOf(command) == Unknown && forall a :: a in args ==> Token(a)
  }

  /** A card that is printed as a comment. */
  ghost predicate Commented(c: Card) { c.UnknownCard? && c.command != "" && c.command[0] == '#' }

  /** What a card must be to be printed so that it can be read back: compression has to be undone, too. */
  ghost predicate WellFormed(c: Card, z: Zlib) {
    && Plain(c) && !Commented(c)
    && (c.CFileCard? ==> c.usize == |c.content| && Allocatable(|z.compress(c.content)|)
                         && Inflate(z, z.compress(c.content)) == Some(c.content))
  }

  lemma OneIsPrinted()
    ensures IntToString(1) == "1"
  {
  }

  lemma FirstWords()
    ensures KindOf("igot") == IGot
    ensures KindOf("gimme") == Gimme
    ensures KindOf("push") == Push
    ensures KindOf("pull") == Pull
    ensures KindOf("cookie") == Cookie
    ensures KindOf("reqconfig") == ReqConfig
    ensures KindOf("private") == Private
    ensures KindOf("clone") == Clone
  {
  }

  lemma LaterWords()
    ensures KindOf("clone_seqno") == LaterKindOf("clone_seqno") == CloneSeqNo
    ensures KindOf("uvgimme") == LaterKindOf("uvgimme") == UVGimme
    ensures KindOf("pragma") == LaterKindOf("pragma") == Pragma
    ensures KindOf("login") == LaterKindOf("login") == Login
    ensures KindOf("error") == LaterKindOf("error") == Error
    ensures KindOf("message") == LaterKindOf("message") == Message
    ensures KindOf("uvigot") == LaterKindOf("uvigot") == UVIGot
    ensures KindOf("file") == LaterKindOf("file") == File
  {
  }

  lemma LastWords()
    ensures KindOf("cfile") == LaterKindOf("cfile") == LastKindOf("cfile") == CFile
    ensures KindOf("config") == LaterKindOf("config") == LastKindOf("config") == Config
    ensures KindOf("uvfile") == LaterKindOf("uvfile") == LastKindOf("uvfile") == UVFile
    ensures KindOf("schema") == LaterKindOf("schema") == LastKindOf("schema") == Schema
  {
  }

  lemma TableWords()
    ensures KindOf("xigot") == LaterKindOf("xigot") == LastKindOf("xigot") == XIGot
    ensures KindOf("xgimme") == LaterKindOf("xgimme") == LastKindOf("xgimme") == XGimme
    ensures KindOf("xrow") == LaterKindOf("xrow") == LastKindOf("xrow") == XRow
    ensures KindOf("xdelete") == LaterKindOf("xdelete") == LastKindOf("xdelete") == XDelete
  {
  }

  lemma CommandsAreTokens(c: Card)
    requires !c.UnknownCard?
    ensures Token(Command(c)) && Command(c)[0] != '#'
  {
    CommandsAreAscii(c);
    AsciiIsToken(Command(c));
  }

  lemma CommandsAreAscii(c: Card)
    requires !c.UnknownCard?
    ensures Command(c) != "" && Command(c)[0] != '#' && forall i :: 0 <= i < |Command(c)| ==> '!' <= Command(c)[i] <= '~'
  {
  }

  /** Every printed first word announces its own card. */
  lemma CommandsAreKinds(c: Card)
    requires !c.UnknownCard?
    ensures KindOf(Command(c)) == CardKind(c) && Token(Command(c)) && Command(c)[0] != '#'
  {
    hide KindOf, LaterKindOf, LastKindOf;
    CommandsAreTokens(c);
    FirstWords();
    LaterWords();
    LastWords();
    TableWords();
  }

  lemma UnknownIsItself(c: Card)
    requires c.UnknownCard?
    ensures Command(c) == c.command && CardKind(c) == Unknown
  {
  }

  ghost function CardKind(c: Card): Kind {
    match c
    case FileCard(_, _, _) => File
    case CFileCard(_, _, _, _) => CFile
    case IGotCard(_, _) => IGot
    case GimmeCard(_) => Gimme
    case LoginCard(_, _, _) => Login
    case PushCard(_, _) => Push
    case PullCard(_, _) => Pull
    case CookieCard(_) => Cookie
    case CloneCard(_, _) => Clone
    case CloneSeqNoCard(_) => CloneSeqNo
    case ConfigCard(_, _) => Config
    case ReqConfigCard(_) => ReqConfig
    case PrivateCard => Private
    case UVFileCard(_, _, _, _, _, _) => UVFile
    case UVGimmeCard(_) => UVGimme
    case UVIGotCard(_, _, _, _) => UVIGot
    case PragmaCard(_, _) => Pragma
    case ErrorCard(_) => Error
    case MessageCard(_) => Message
    case SchemaCard(_, _, _, _, _) => Schema
    case XIGotCard(_, _, _) => XIGot
    case XGimmeCard(_, _) => XGimme
    case XRowCard(_, _, _, _) => XRow
    case XDeleteCard(_, _, _, _) => XDelete
    case UnknownCard(_, _) => Unknown
  }

  /** The words of a plain card survive splitting. */
  lemma ArgsAreTokens(c: Card, z: Zlib)
    requires Plain(c)
    ensures Token(Command(c)) && (Commented(c) <==> Command(c)[0] == '#') && forall a :: a in Args(c, z) ==> Token(a)
  {
    hide Encoded, Decoded, IntToString, KindOf, Command, NoSpace;
    if c.UnknownCard? { UnknownIsItself(c); } else { CommandsAreKinds(c); }
    assert Token("1") by { IntIsToken(1); OneIsPrinted(); }
    forall n: int ensures Token(IntToString(n)) { IntIsToken(n); }
    forall s | Escapable(s) ensures Token(Encoded(s)) { EscapedIsToken(s); }
  }

  /** A payload in front of anything is taken back whole; so is a payload with its newline. */
  lemma PayloadTaken(content: string, rest: string)
    requires Allocatable(|content|)
    ensures TakePayload(content + rest, |content|) == Taken(content, rest)
    ensures TakePayloadLine(content + "\n" + rest, |content|) == Taken(content, rest)
  {
    assert content + "\n" + rest == content + ("\n" + rest);
    assert (content + ("\n" + rest))[|content|..] == "\n" + rest;
  }

  ghost predicate CarriesFile(c: Card) { c.FileCard? || c.CFileCard? || c.ConfigCard? || c.UVFileCard? }

  ghost predicate CarriesRow(c: Card) { c.SchemaCard? || c.XRowCard? || c.XDeleteCard? }

  lemma ParseFilePayload(c: Card, rest: string, z: Zlib)
    requires WellFormed(c, z) && KindOf(Command(c)) == CardKind(c) && CarriesFile(c)
    ensures ParseFields(Command(c), Args(c, z), Body(c, z) + rest, z) == Got(c, rest)
  {
    hide IntToString, Atoi, Token, NoSpace, KindOf, Command, TakePayload, TakePayloadLine, IsEnd;
    forall n: int | InRange(n) ensures Atoi(IntToString(n)) == Some(n) { IntRoundTrip(n); }
    assert "" + rest == rest;
    match c
    case FileCard(_, _, content) => PayloadTaken(content, rest);
    case CFileCard(_, _, _, content) => PayloadTaken(z.compress(content), rest);
    case ConfigCard(_, content) => PayloadTaken(content, rest);
    case UVFileCard(_, _, _, _, _, content) => PayloadTaken(content, rest);
  }

  lemma ParseRowPayload(c: Card, rest: string, z: Zlib)
    requires WellFormed(c, z) && KindOf(Command(c)) == CardKind(c) && CarriesRow(c)
    ensures ParseFields(Command(c), Args(c, z), Body(c, z) + rest, z) == Got(c, rest)
  {
    hide IntToString, Atoi, Token, NoSpace, KindOf, Command, TakePayload, TakePayloadLine, IsEnd;
    forall n: int | InRange(n) ensures Atoi(IntToString(n)) == Some(n) { IntRoundTrip(n); }
    match c
    case SchemaCard(_, _, _, _, content) => PayloadTaken(content, rest);
    case XRowCard(_, _, _, content) => PayloadTaken(content, rest);
    case XDeleteCard(_, _, _, pkData) => PayloadTaken(pkData, rest);
  }

  lemma ParsePlain(c: Card, rest: string, z: Zlib)
    requires WellFormed(c, z) && KindOf(Command(c)) == CardKind(c) && (c.UnknownCard? ==> Command(c) == c.command)
    requires !CarriesFile(c) && !CarriesRow(c)
    ensures ParseFields(Command(c), Args(c, z), rest, z) == Got(c, rest)
  {
    hide Encoded, Decoded, IntToString, Atoi, Token, NoSpace, KindOf, Command;
    forall n: int | InRange(n) ensures Atoi(IntToString(n)) == Some(n) { IntRoundTrip(n); }
    forall s | Escapable(s) ensures Decoded(Encoded(s)) == s { EscapedIsToken(s); }
  }

  /** Every well-formed card is parsed back from its words and what follows them, and leaves the rest. */
  lemma ParsePrinted(c: Card, rest: string, z: Zlib)
    requires WellFormed(c, z)
    ensures ParseFields(Command(c), Args(c, z), Body(c, z) + rest, z) == Got(c, rest)
  {
    if c.UnknownCard? { UnknownIsItself(c); } else { CommandsAreKinds(c); }
    hide ParseFields, KindOf, Command, Args, WellFormed;
    if CarriesFile(c) {
      ParseFilePayload(c, rest, z);
    } else if CarriesRow(c) {
      ParseRowPayload(c, rest, z);
    } else {
      assert Body(c, z) + rest == rest;
      ParsePlain(c, rest, z);
    }
  }
}

/** The wire format as it stands in the bytes: the line and the payload of every card, how many words each has, which lines
    are skipped, and which card is the bad one (internal/xfer/encode.go, internal/xfer/decode.go). */
module XferFormat {
  import opened Bytes
  import opened Decimal
  import opened FossilText
  import opened Words
  import opened Reading
  import opened XferCards
  import opened XferMessage
  import XferExact

  // ----- every card in full -----

  lemma OneMoreWord(first: string, others: seq<string>, last: string)
    ensures Line(first, others + [last]) == Line(first, others) + " " + last && Line(first, []) == first
  {
    assert (others + [last])[..|others|] == others;
  }

  lemma Wire1(card: Card, z: Zlib, a: string, body: string)
    requires Command(card) == a && Args(card, z) == [] && Body(card, z) == body
    ensures Wire(card, z) == a + "\n" + body
  {
  }

  lemma Wire2(card: Card, z: Zlib, a: string, b: string, body: string)
    requires Command(card) == a && Args(card, z) == [b] && Body(card, z) == body
    ensures Wire(card, z) == a + " " + b + "\n" + body
  {
    hide Command, Args, Body, Line;
    OneMoreWord(a, [], b);
    assert [] + [b] == [b];
  }

  lemma Wire3(card: Card, z: Zlib, a: string, b: string, c: string, body: string)
    requires Command(card) == a && Args(card, z) == [b, c] && Body(card, z) == body
    ensures Wire(card, z) == a + " " + b + " " + c + "\n" + body
  {
    hide Command, Args, Body, Line;
    OneMoreWord(a, [], b);
    OneMoreWord(a, [b], c);
    assert [b] + [c] == [b, c];
    assert [] + [b] == [b];
  }

  lemma Wire4(card: Card, z: Zlib, a: string, b: string, c: string, d: string, body: string)
    requires Command(card) == a && Args(card, z) == [b, c, d] && Body(card, z) == body
    ensures Wire(card, z) == a + " " + b + " " + c + " " + d + "\n" + body
  {
    hide Command, Args, Body, Line;
    OneMoreWord(a, [], b);
    OneMoreWord(a, [b], c);
    OneMoreWord(a, [b, c], d);
    assert [b] + [c] == [b, c];
    assert [b, c] + [d] == [b, c, d];
    assert [] + [b] == [b];
  }

  lemma Wire5(card: Card, z: Zlib, a: string, b: string, c: string, d: string, e: string, body: string)
    requires Command(card) == a && Args(card, z) == [b, c, d, e] && Body(card, z) == body
    ensures Wire(card, z) == a + " " + b + " " + c + " " + d + " " + e + "\n" + body
  {
    hide Command, Args, Body, Line;
    OneMoreWord(a, [], b);
    OneMoreWord(a, [b], c);
    OneMoreWord(a, [b, c], d);
    OneMoreWord(a, [b, c, d], e);
    assert [b] + [c] == [b, c];
    assert [b, c] + [d] == [b, c, d];
    assert [b, c, d] + [e] == [b, c, d, e];
    assert [] + [b] == [b];
  }

  lemma Wire6(card: Card, z: Zlib, a: string, b: string, c: string, d: string, e: string, f: string, body: string)
    requires Command(card) == a && Args(card, z) == [b, c, d, e, f] && Body(card, z) == body
    ensures Wire(card, z) == a + " " + b + " " + c + " " + d + " " + e + " " + f + "\n" + body
  {
    hide Command, Args, Body, Line;
    OneMoreWord(a, [], b);
    OneMoreWord(a, [b], c);
    OneMoreWord(a, [b, c], d);
    OneMoreWord(a, [b, c, d], e);
    OneMoreWord(a, [b, c, d, e], f);
    assert [b] + [c] == [b, c];
    assert [b, c] + [d] == [b, c, d];
    assert [b, c, d] + [e] == [b, c, d, e];
    assert [b, c, d, e] + [f] == [b, c, d, e, f];
    assert [] + [b] == [b];
  }

  /** A file: its name, the name of its delta's source if there is one, its size, and behind the line the content itself. */
  lemma FileInFull(u: string, src: string, s: string, z: Zlib)
    requires src != ""
    ensures Wire(FileCard(u, "", s), z) == "file" + " " + u + " " + IntToString(|s|) + "\n" + s
    ensures Wire(FileCard(u, src, s), z) == "file" + " " + u + " " + src + " " + IntToString(|s|) + "\n" + s
  {
    hide IntToString, Encoded, Wire;
    Wire3(FileCard(u, "", s), z, "file", u, IntToString(|s|), s);
    Wire4(FileCard(u, src, s), z, "file", u, src, IntToString(|s|), s);
  }

  /** The same compressed, with both sizes. */
  lemma CFileInFull(u: string, src: string, usize: int, s: string, z: Zlib)
    requires src != ""
    ensures Wire(CFileCard(u, "", usize, s), z) == "cfile" + " " + u + " " + IntToString(|s|) + " " + IntToString(|z.compress(s)|) + "\n" + z.compress(s)
    ensures Wire(CFileCard(u, src, usize, s), z) == "cfile" + " " + u + " " + src + " " + IntToString(|s|) + " " + IntToString(|z.compress(s)|) + "\n" + z.compress(s)
  {
    hide IntToString, Encoded, Wire;
    Wire4(CFileCard(u, "", usize, s), z, "cfile", u, IntToString(|s|), IntToString(|z.compress(s)|), z.compress(s));
    Wire5(CFileCard(u, src, usize, s), z, "cfile", u, src, IntToString(|s|), IntToString(|z.compress(s)|), z.compress(s));
  }

  /** Cards of one word, and a private announcement. */
  lemma AnnouncementsInFull(u: string, n: int, z: Zlib)
    ensures Wire(IGotCard(u, false), z) == "igot" + " " + u + "\n"
    ensures Wire(IGotCard(u, true), z) == "igot" + " " + u + " " + "1" + "\n"
    ensures Wire(GimmeCard(u), z) == "gimme" + " " + u + "\n"
    ensures Wire(CookieCard(u), z) == "cookie" + " " + u + "\n"
    ensures Wire(ReqConfigCard(u), z) == "reqconfig" + " " + u + "\n"
    ensures Wire(CloneSeqNoCard(n), z) == "clone_seqno" + " " + IntToString(n) + "\n"
  {
    hide IntToString, Encoded, Wire;
    Wire2(IGotCard(u, false), z, "igot", u, "");
    Wire3(IGotCard(u, true), z, "igot", u, "1", "");
    Wire2(GimmeCard(u), z, "gimme", u, "");
    Wire2(CookieCard(u), z, "cookie", u, "");
    Wire2(ReqConfigCard(u), z, "reqconfig", u, "");
    Wire2(CloneSeqNoCard(n), z, "clone_seqno", IntToString(n), "");
  }

  /** How a session is opened: the project comes first. */
  lemma SessionsInFull(p: string, s: string, v: int, n: int, z: Zlib)
    requires s != "" && (v != 0 || n != 0)
    ensures Wire(PushCard(s, p), z) == "push" + " " + p + " " + s + "\n"
    ensures Wire(PushCard("", p), z) == "push" + " " + p + "\n"
    ensures Wire(PullCard(s, p), z) == "pull" + " " + p + " " + s + "\n"
    ensures Wire(CloneCard(v, n), z) == "clone" + " " + IntToString(v) + " " + IntToString(n) + "\n"
    ensures Wire(CloneCard(0, 0), z) == "clone" + "\n"
    ensures Wire(PrivateCard, z) == "private" + "\n"
  {
    hide IntToString, Encoded, Wire;
    Wire3(PushCard(s, p), z, "push", p, s, "");
    Wire2(PushCard("", p), z, "push", p, "");
    Wire3(PullCard(s, p), z, "pull", p, s, "");
    Wire3(CloneCard(v, n), z, "clone", IntToString(v), IntToString(n), "");
    Wire1(CloneCard(0, 0), z, "clone", "");
    Wire1(PrivateCard, z, "private", "");
  }

  /** Logins and texts. */
  lemma TextsInFull(a: string, b: string, c: string, z: Zlib)
    ensures Wire(LoginCard(a, b, c), z) == "login" + " " + Encoded(a) + " " + b + " " + c + "\n"
    ensures Wire(ErrorCard(a), z) == "error" + " " + Encoded(a) + "\n"
    ensures Wire(MessageCard(a), z) == "message" + " " + Encoded(a) + "\n"
  {
    hide IntToString, Encoded, Wire;
    Wire4(LoginCard(a, b, c), z, "login", Encoded(a), b, c, "");
    Wire2(ErrorCard(a), z, "error", Encoded(a), "");
    Wire2(MessageCard(a), z, "message", Encoded(a), "");
  }

  /** Pragmas, and cards of unknown kinds. */
  lemma OthersInFull(a: string, b: string, c: string, z: Zlib)
    ensures Wire(PragmaCard(a, [b, c]), z) == "pragma" + " " + a + " " + b + " " + c + "\n"
    ensures Wire(UnknownCard(a, [b, c]), z) == a + " " + b + " " + c + "\n"
  {
    hide IntToString, Encoded, Wire;
    Wire4(PragmaCard(a, [b, c]), z, "pragma", a, b, c, "");
    Wire3(UnknownCard(a, [b, c]), z, a, b, c, "");
  }

  /** Unversioned files, with a content unless the flags omit it. */
  lemma UnversionedInFull(name: string, t: int, h: string, n: int, flags: int, s: string, z: Zlib)
    requires !OmitsContent(flags)
    ensures Wire(UVFileCard(name, t, h, n, flags, s), z) == "uvfile" + " " + name + " " + IntToString(t) + " " + h + " " + IntToString(n) + " " + IntToString(flags) + "\n" + s
    ensures Wire(UVFileCard(name, t, h, n, 1, s), z) == "uvfile" + " " + name + " " + IntToString(t) + " " + h + " " + IntToString(n) + " " + "1" + "\n"
    ensures Wire(UVFileCard(name, t, h, n, 4, s), z) == "uvfile" + " " + name + " " + IntToString(t) + " " + h + " " + IntToString(n) + " " + "4" + "\n"
    ensures Wire(UVGimmeCard(name), z) == "uvgimme" + " " + name + "\n"
    ensures Wire(UVIGotCard(name, t, h, n), z) == "uvigot" + " " + name + " " + IntToString(t) + " " + h + " " + IntToString(n) + "\n"
  {
    hide IntToString, Encoded, Wire;
    SmallFlags();
    Wire6(UVFileCard(name, t, h, n, flags, s), z, "uvfile", name, IntToString(t), h, IntToString(n), IntToString(flags), s);
    Wire6(UVFileCard(name, t, h, n, 1, s), z, "uvfile", name, IntToString(t), h, IntToString(n), "1", "");
    Wire6(UVFileCard(name, t, h, n, 4, s), z, "uvfile", name, IntToString(t), h, IntToString(n), "4", "");
    Wire2(UVGimmeCard(name), z, "uvgimme", name, "");
    Wire5(UVIGotCard(name, t, h, n), z, "uvigot", name, IntToString(t), h, IntToString(n), "");
  }

  /** Tables and their rows: a newline follows the content. */
  lemma TablesInFull(a: string, k: string, v: int, t: int, s: string, z: Zlib)
    ensures Wire(SchemaCard(a, v, k, t, s), z) == "schema" + " " + a + " " + IntToString(v) + " " + k + " " + IntToString(t) + " " + IntToString(|s|) + "\n" + (s + "\n")
    ensures Wire(XRowCard(a, k, t, s), z) == "xrow" + " " + a + " " + k + " " + IntToString(t) + " " + IntToString(|s|) + "\n" + (s + "\n")
    ensures Wire(XDeleteCard(a, k, t, s), z) == "xdelete" + " " + a + " " + k + " " + IntToString(t) + " " + IntToString(|s|) + "\n" + (s + "\n")
  {
    hide IntToString, Encoded, Wire;
    Wire6(SchemaCard(a, v, k, t, s), z, "schema", a, IntToString(v), k, IntToString(t), IntToString(|s|), s + "\n");
    Wire5(XRowCard(a, k, t, s), z, "xrow", a, k, IntToString(t), IntToString(|s|), s + "\n");
    Wire5(XDeleteCard(a, k, t, s), z, "xdelete", a, k, IntToString(t), IntToString(|s|), s + "\n");
  }

  /** What is said of rows, and settings. */
  lemma TableTalkInFull(a: string, k: string, t: int, s: string, z: Zlib)
    ensures Wire(XIGotCard(a, k, t), z) == "xigot" + " " + a + " " + k + " " + IntToString(t) + "\n"
    ensures Wire(XGimmeCard(a, k), z) == "xgimme" + " " + a + " " + k + "\n"
    ensures Wire(ConfigCard(a, s), z) == "config" + " " + a + " " + IntToString(|s|) + "\n" + (s + "\n")
  {
    hide IntToString, Encoded, Wire;
    Wire4(XIGotCard(a, k, t), z, "xigot", a, k, IntToString(t), "");
    Wire3(XGimmeCard(a, k), z, "xgimme", a, k, "");
    Wire3(ConfigCard(a, s), z, "config", a, IntToString(|s|), s + "\n");
  }

  lemma SmallFlags()
    ensures IntToString(1) == "1" && IntToString(4) == "4"
  {
  }

  // ----- which words -----

  ghost const FIRST_WORDS: seq<string> := ["igot", "gimme", "push", "pull", "cookie", "reqconfig", "private", "clone"]
  ghost const LATER_WORDS: seq<string> := ["clone_seqno", "uvgimme", "pragma", "login", "error", "message", "uvigot", "file"]
  ghost const LAST_WORDS: seq<string> := ["cfile", "config", "uvfile", "schema", "xigot", "xgimme", "xrow", "xdelete"]

  /** No other first word announces a card of a known kind. */
  lemma OtherWordsAreUnknown(cmd: string)
    ensures KindOf(cmd) == Unknown <==> cmd !in FIRST_WORDS && cmd !in LATER_WORDS && cmd !in LAST_WORDS
  {
    hide KindOf;
    if KindOf(cmd) != Unknown { IsFirstWord(cmd); }
    if cmd in FIRST_WORDS { FirstIsKnown(cmd); }
    if cmd in LATER_WORDS { LaterIsKnown(cmd); }
    if cmd in LAST_WORDS { LastIsKnown(cmd); }
  }

  lemma FirstIsKnown(cmd: string)
    requires cmd in FIRST_WORDS
    ensures KindOf(cmd) != Unknown
  {
    FirstWords();
    hide KindOf;
  }

  lemma LaterIsKnown(cmd: string)
    requires cmd in LATER_WORDS
    ensures KindOf(cmd) != Unknown
  {
    LaterWords();
    hide KindOf, LaterKindOf;
  }

  lemma LastIsKnown(cmd: string)
    requires cmd in LAST_WORDS
    ensures KindOf(cmd) != Unknown
  {
    LastWords();
    TableWords();
    hide KindOf, LaterKindOf, LastKindOf;
  }

  lemma IsFirstWord(cmd: string)
    requires KindOf(cmd) != Unknown
    ensures cmd in FIRST_WORDS || cmd in LATER_WORDS || cmd in LAST_WORDS
  {
    assert FIRST_WORDS[0] == "igot" && FIRST_WORDS[1] == "gimme" && FIRST_WORDS[2] == "push" && FIRST_WORDS[3] == "pull";
    assert FIRST_WORDS[4] == "cookie" && FIRST_WORDS[5] == "reqconfig" && FIRST_WORDS[6] == "private" && FIRST_WORDS[7] == "clone";
    hide LaterKindOf, LastKindOf;
    if KindOf(cmd) == LaterKindOf(cmd) && cmd !in FIRST_WORDS { IsLaterWord(cmd); }
  }

  lemma IsLaterWord(cmd: string)
    requires LaterKindOf(cmd) != Unknown
    ensures cmd in LATER_WORDS || cmd in LAST_WORDS
  {
    assert LATER_WORDS[0] == "clone_seqno" && LATER_WORDS[1] == "uvgimme" && LATER_WORDS[2] == "pragma" && LATER_WORDS[3] == "login";
    assert LATER_WORDS[4] == "error" && LATER_WORDS[5] == "message" && LATER_WORDS[6] == "uvigot" && LATER_WORDS[7] == "file";
    hide LastKindOf;
    if LaterKindOf(cmd) == LastKindOf(cmd) && cmd !in LATER_WORDS { IsLastWord(cmd); }
  }

  lemma IsLastWord(cmd: string)
    requires LastKindOf(cmd) != Unknown
    ensures cmd in LAST_WORDS
  {
    assert LAST_WORDS[0] == "cfile" && LAST_WORDS[1] == "config" && LAST_WORDS[2] == "uvfile" && LAST_WORDS[3] == "schema";
    assert LAST_WORDS[4] == "xigot" && LAST_WORDS[5] == "xgimme" && LAST_WORDS[6] == "xrow" && LAST_WORDS[7] == "xdelete";
  }

  // ----- what is refused -----

  /** Which lines without numbers are refused: those with too few or too many words. */
  lemma WordsRefused(cmd: string, args: seq<string>, rest: string, z: Zlib)
    ensures var k, n, refused := KindOf(cmd), |args|, ParseFields(cmd, args, rest, z) == Malformed;
            && (k in {Kind.Gimme, Cookie, ReqConfig, UVGimme, Error, Message} ==> (refused <==> n != 1))
            && (k in {IGot, Push} ==> (refused <==> n != 1 && n != 2))
            && (k in {Pull, XGimme} ==> (refused <==> n != 2))
            && (k == Private ==> (refused <==> n != 0))
            && (k == Login ==> (refused <==> n != 3))
            && (k == Pragma ==> (refused <==> n == 0))
            && (k == Unknown ==> !refused)
  {
    hide KindOf, ParseFile, ParseCFile, ParseConfig, ParseUVFile, ParseSchema, ParseXRow, ParseXDelete, ParseClone, Decoded, IsEnd;
    hide ParseCloneSeqNo, ParseUVIGot, ParseXIGot;
  }

  predicate IsNumber(s: string) { Atoi(s).Some? }

  /** Which lines with numbers are refused: also those whose numbers are none. */
  lemma NumbersRefused(cmd: string, args: seq<string>, rest: string, z: Zlib)
    ensures var k, n, refused := KindOf(cmd), |args|, ParseFields(cmd, args, rest, z) == Malformed;
            && (k == Clone ==> (refused <==> n != 0 && !(n == 2 && IsNumber(args[0]) && IsNumber(args[1]))))
            && (k == CloneSeqNo ==> (refused <==> !(n == 1 && IsNumber(args[0]))))
            && (k == UVIGot ==> (refused <==> !(n == 4 && IsNumber(args[1]) && IsNumber(args[3]))))
            && (k == XIGot ==> (refused <==> !(n == 3 && IsNumber(args[2]))))
  {
    hide KindOf, ParseFile, ParseCFile, ParseConfig, ParseUVFile, ParseSchema, ParseXRow, ParseXDelete, Atoi, Decoded, IsEnd;
  }

  /** There is no such payload: the size is a number that a buffer can have, and less is left. */
  predicate TooShort(size: string, rest: string) { Atoi(size).Some? && Allocatable(Atoi(size).value) && |rest| < Atoi(size).value }

  /** The size is a number, and not beyond what is allowed for rows. */
  predicate RowSize(size: string) { Atoi(size).Some? && 0 <= Atoi(size).value <= 67108864 }

  /** Which lines that announce a payload are refused: also those with less left than they announce. */
  lemma PayloadsRefused(cmd: string, args: seq<string>, rest: string, z: Zlib)
    ensures var k, n, refused := KindOf(cmd), |args|, ParseFields(cmd, args, rest, z) == Malformed;
            && (k == File ==> (refused <==> !(2 <= n <= 3 && IsNumber(args[n - 1]) && !TooShort(args[n - 1], rest))))
            && (k == Config ==> (refused <==> !(n == 2 && IsNumber(args[1]) && !TooShort(args[1], rest))))
            && (k == UVFile ==>
                  (refused <==> !(n == 5 && IsNumber(args[1]) && IsNumber(args[3]) && IsNumber(args[4])
                                  && (OmitsContent(Atoi(args[4]).value) || !TooShort(args[3], rest)))))
            && (k == Schema ==>
                  (refused <==> !(n == 5 && IsNumber(args[1]) && IsNumber(args[3]) && RowSize(args[4]) && !TooShort(args[4], rest))))
            && (k in {XRow, XDelete} ==> (refused <==> !(n == 4 && IsNumber(args[2]) && RowSize(args[3]) && !TooShort(args[3], rest))))
  {
    hide KindOf, ParseCFile, ParseClone, Atoi, Decoded, IsEnd, ParseCloneSeqNo, ParseUVIGot, ParseXIGot;
  }

  /** A compressed file: its payload must expand, and to the announced size unless it is a delta. */
  lemma CompressedRefused(args: seq<string>, rest: string, z: Zlib)
    ensures ParseCFile(args, rest, z) == Malformed <==>
            !(|args| in {3, 4} && IsNumber(args[|args| - 2]) && IsNumber(args[|args| - 1])
              && !TooShort(args[|args| - 1], rest)
              && (Allocatable(Atoi(args[|args| - 1]).value) ==>
                    var content := Inflate(z, rest[..Atoi(args[|args| - 1]).value]);
                    content.Some? && (|args| == 3 || args[1] == "" ==> |content.value| == Atoi(args[|args| - 2]).value)))
  {
    hide Atoi, Inflate;
  }

  /** A private announcement is marked by "1", and by nothing else. */
  lemma PrivateMark(uuid: string, mark: string, rest: string, z: Zlib)
    ensures ParseFields("igot", [uuid, mark], rest, z) == Got(IGotCard(uuid, mark == "1"), rest)
  {
    FirstWords();
  }

  /** Flags omit the content exactly when bit 0 or bit 2 is set. */
  lemma OmittingFlags(flags: nat)
    requires flags < 8
    ensures OmitsContent(flags) <==> flags in {1, 3, 4, 5, 6, 7}
  {
  }

  // ----- lines -----

  ghost predicate OnlyReturns(s: string) { forall i :: 0 <= i < |s| ==> s[i] == '\r' }

  lemma {:induction false} ReturnsAreTrimmed(s: string, returns_: string)
    requires OnlyReturns(returns_)
    ensures TrimRight(s + returns_) == TrimRight(s)
    decreases |returns_|
  {
    if returns_ == "" {
      assert s + returns_ == s;
    } else {
      var init := returns_[..|returns_| - 1];
      assert (s + returns_)[..|s + returns_| - 1] == s + init;
      ReturnsAreTrimmed(s, init);
    }
  }

  /** Lines without anything in them are skipped, whatever carriage returns they have, and so are comments. */
  lemma LinesAreSkipped(line: string, rest: string, z: Zlib)
    requires NoNewlineIn(line) && (OnlyReturns(line) || line[0] == '#')
    ensures NextCard(line + "\n" + rest, z) == NextCard(rest, z) && NextCard(line, z) == End
  {
    hide Fields, ParseFields;
    NewlineAfter(line, rest);
    var s := line + "\n" + rest;
    assert s[..|line|] == line && s[|line| + 1..] == rest;
    NoNewlineAtAll(line);
    assert line[..|line|] == line;
    if OnlyReturns(line) {
      ReturnsAreTrimmed("", line);
      assert "" + line == line;
    } else {
      CommentStays(line);
    }
  }

  lemma {:induction false} CommentStays(line: string)
    requires line != "" && line[0] == '#'
    ensures TrimRight(line) != "" && TrimRight(line)[0] == '#'
    decreases |line|
  {
    if TrimRight(line) != line { CommentStays(line[..|line| - 1]); }
  }

  lemma {:induction false} NoNewlineAtAll(line: string)
    requires NoNewlineIn(line)
    ensures FirstNewline(line) == |line|
  {
    if line != "" { NoNewlineAtAll(line[1..]); }
  }

  /** A line is read without the carriage returns at its end, and the last one without its newline. */
  lemma ReturnsAreIgnored(line: string, returns_: string, rest: string, z: Zlib)
    requires NoNewlineIn(line) && OnlyReturns(returns_)
    ensures NextCard(line + returns_ + "\n" + rest, z) == NextCard(line + "\n" + rest, z)
    ensures NextCard(line + returns_, z) == NextCard(line + "\n", z)
  {
    hide Fields, ParseFields, TrimRight;
    ReturnsAreTrimmed(line, returns_);
    NextOfLine(line + returns_, rest, z);
    NextOfLine(line, rest, z);
    NextOfLine(line, "", z);
    assert line + "\n" + "" == line + "\n";
    NothingIsNext(z);
    NoNewlineAtAll(line + returns_);
    assert (line + returns_)[..|line + returns_|] == line + returns_;
  }

  lemma NextOfLine(line: string, rest: string, z: Zlib)
    requires NoNewlineIn(line)
    ensures NextCard(line + "\n" + rest, z) ==
            var trimmed := TrimRight(line);
            if trimmed == "" || trimmed[0] == '#' then NextCard(rest, z)
            else if Fields(trimmed) == [] then Next(Malformed)
            else Next(ParseFields(Fields(trimmed)[0], Fields(trimmed)[1..], rest, z))
  {
    hide Fields, ParseFields, TrimRight;
    NewlineAfter(line, rest);
    var s := line + "\n" + rest;
    assert s[..|line|] == line && s[|line| + 1..] == rest;
  }

  // ----- whole messages -----

  /** Behind well-formed cards, whatever is next decides: the end, a bad card, which is known by its number, or a panic. */
  lemma {:induction false} BehindCards(cards: seq<Card>, tail: string, before: seq<Card>, z: Zlib)
    requires forall c :: c in cards ==> WellFormed(c, z)
    ensures DecodingFrom(Wires(cards, z) + tail, z, before) == DecodingFrom(tail, z, before + cards)
    decreases |cards|
  {
    hide Wire, WellFormed, NextCard;
    if cards == [] {
      assert Wires(cards, z) + tail == tail && before + cards == before;
    } else {
      var c, others := cards[0], cards[1..];
      assert cards == [c] + others && c in cards && forall d :: d in others ==> d in cards;
      WiresPrepend(c, others, z);
      assert Wire(c, z) + Wires(others, z) + tail == Wire(c, z) + (Wires(others, z) + tail);
      NextIsPrinted(c, Wires(others, z) + tail, z);
      BehindCards(others, tail, before + [c], z);
      assert before + [c] + others == before + cards;
    }
  }

  lemma BadCardIsNumbered(cards: seq<Card>, tail: string, z: Zlib)
    requires forall c :: c in cards ==> WellFormed(c, z)
    ensures NextCard(tail, z) == Next(Malformed) ==> DecodingFrom(Wires(cards, z) + tail, z, []) == BadCard(|cards|)
    ensures NextCard(tail, z) == Next(Panics) ==> DecodingFrom(Wires(cards, z) + tail, z, []) == Crash
    ensures NextCard(tail, z) == End ==> DecodingFrom(Wires(cards, z) + tail, z, []) == Cards(cards)
  {
    hide NextCard, WellFormed;
    BehindCards(cards, tail, [], z);
    assert [] + cards == cards;
  }
}

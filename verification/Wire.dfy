/** The text of the commands: what servers print to each other and into their
    logs, and how a server parses a line and tells who sent it. */
module Wire {
  import opened Optional
  import opened Text
  import opened Store

  const TAG_PRIMARY := "PRIMARY"
  const TAG_SECONDARY := "SECONDARY"

  // ---- Parsing ----

  function UpperChar(c: char): char {
    if 'a' <= c <= 'z' then c - 32 as char else c
  }

  function Upper(s: string): string {
    seq(|s|, i requires 0 <= i < |s| => UpperChar(s[i]))
  }

  /** The verb with its blank in upper case, then the comma-separated fields */
  function SplitKVStoreCommand(line: string): (params: seq<string>)
    ensures |params| >= 1
    ensures forall p :: p in params[1..] ==> ',' !in p
  {
    var n := Until(line, ' ');
    if n == |line| then [""] + Pieces(line, ',')
    else [Upper(line[..n + 1])] + Pieces(line[n + 1..], ',')
  }

  method SplitCommand(line: string) returns (params: seq<string>)
    ensures params == SplitKVStoreCommand(line)
  {
    var space := IndexOf(line, ' ');
    var temp := ToUpper(line[..space + 1]);
    var fields := ReadPieces(line[space + 1..], ',');
    params := [temp] + fields;
    if space == -1 {
      assert line[0..] == line && Upper("") == "";
    }
  }

  method ToUpper(s: string) returns (temp: string)
    ensures temp == Upper(s)
  {
    temp := "";
    for i := 0 to |s|
      invariant temp == Upper(s[..i])
    {
      temp := temp + [UpperChar(s[i])];
    }
  }

  function Decode(params: seq<string>): Cmd
    requires |params| >= 1
  {
    var n := |params|;
    if params[0] == "PUT " && n >= 4 then Put(params[1], params[2], params[3])
    else if params[0] == "CPUT " && n >= 5 then Cput(params[1], params[2], params[3], params[4])
    else if params[0] == "DELETE " && n >= 3 then Delete(params[1], params[2])
    else if params[0] == "GET " && n == 3 then Get(params[1], params[2])
    else Other
  }

  datatype Origin = FromPrimary | FromSecondary | FromFrontend

  function OriginOf(params: seq<string>): Origin
    requires |params| >= 1
  {
    if |params| >= 4 && params[0] in {"PUT ", "CPUT ", "DELETE "} then
      if params[|params| - 1] == TAG_PRIMARY then FromPrimary
      else if params[|params| - 1] == TAG_SECONDARY then FromSecondary
      else FromFrontend
    else FromFrontend
  }

  function CmdOf(line: string): Cmd {
    Decode(SplitKVStoreCommand(line))
  }

  /** The commands of a log or dead-server log, line by line */
  function CmdsOf(lines: seq<string>): (cs: seq<Cmd>)
    ensures |cs| == |lines|
    ensures forall i :: 0 <= i < |lines| ==> cs[i] == CmdOf(lines[i])
  {
    seq(|lines|, i requires 0 <= i < |lines| => CmdOf(lines[i]))
  }

  lemma CmdsOfSnoc(lines: seq<string>, line: string)
    ensures CmdsOf(lines + [line]) == CmdsOf(lines) + [CmdOf(line)]
  {
  }

  // ---- Printing ----

  function Verb(cmd: Cmd): string {
    match cmd
    case Put(_, _, _) => "PUT "
    case Cput(_, _, _, _) => "CPUT "
    case Delete(_, _) => "DELETE "
    case Get(_, _) => "GET "
    case Other => ""
  }

  function Fields(cmd: Cmd): (fs: seq<string>)
    ensures !cmd.Other? ==> |fs| >= 2
  {
    match cmd
    case Put(r, c, v) => [r, c, v]
    case Cput(r, c, e, v) => [r, c, e, v]
    case Delete(r, c) => [r, c]
    case Get(r, c) => [r, c]
    case Other => []
  }

  function Commas(fs: seq<string>): string {
    Join(fs, ',')
  }

  /** The line logged for a command that succeeded, also what a client sends */
  function Print(cmd: Cmd): string {
    Verb(cmd) + Commas(Fields(cmd))
  }

  /** What a primary sends to its secondaries */
  function ToSecondaries(cmd: Cmd): string {
    Print(cmd) + "," + TAG_PRIMARY + CRLF
  }

  /** What a secondary sends on to its primary */
  function ToPrimary(cmd: Cmd): string {
    Print(cmd) + "," + TAG_SECONDARY + CRLF
  }

  /** The receiver's command buffer holds the line without its CRLF. */
  function Received(text: string): string
    requires |text| >= 2
  {
    text[..|text| - 2]
  }

  predicate CommaFree(cmd: Cmd) {
    forall f :: f in Fields(cmd) ==> ',' !in f
  }

  function LastField(cmd: Cmd): string {
    if cmd.Other? then "" else Fields(cmd)[|Fields(cmd)| - 1]
  }

  /** A write whose printed fields stay apart and on one line */
  predicate OneLine(cmd: Cmd) {
    cmd.IsWrite() && forall f :: f in Fields(cmd) ==> ',' !in f && NEWLINE !in f
  }

  /** Fields that survive being written to a log and read back */
  predicate WellFormed(cmd: Cmd) {
    OneLine(cmd) && LastField(cmd) != ""
  }

  /** What the line of a write is read back as */
  function Logs(cmd: Cmd): Cmd {
    if LastField(cmd) == "" then Other else cmd
  }

  // ---- Round trips ----

  lemma UpperVerb(cmd: Cmd)
    ensures Upper(Verb(cmd)) == Verb(cmd)
    ensures var n := |Verb(cmd)| - 1;
            !cmd.Other? ==> n >= 0 && Verb(cmd)[n] == ' ' && forall k :: 0 <= k < n ==> Verb(cmd)[k] != ' '
    ensures forall k :: 0 <= k < |Verb(cmd)| ==> !('a' <= Verb(cmd)[k] <= 'z')
  {
    var v := Verb(cmd);
    assert forall k :: 0 <= k < |v| ==> !('a' <= v[k] <= 'z');
  }

  lemma VerbSplit(cmd: Cmd, rest: string)
    requires !cmd.Other?
    ensures SplitKVStoreCommand(Verb(cmd) + rest) == [Verb(cmd)] + Pieces(rest, ',')
  {
    var line := Verb(cmd) + rest;
    var n := |Verb(cmd)| - 1;
    UpperVerb(cmd);
    assert forall k :: 0 <= k <= n ==> line[k] == Verb(cmd)[k];
    UntilIs(line, ' ', n);
    assert line[..n + 1] == Verb(cmd) && line[n + 1..] == rest;
  }

  /** Decoding looks at the verb and at the leading fields only. */
  lemma DecodeFields(cmd: Cmd, extra: seq<string>)
    requires cmd.IsWrite()
    ensures Decode([Verb(cmd)] + Fields(cmd) + extra) == cmd
  {
    var params := [Verb(cmd)] + Fields(cmd) + extra;
    assert |params| == 1 + |Fields(cmd)| + |extra| && params[0] == Verb(cmd);
    assert params[1] == Fields(cmd)[0] && params[2] == Fields(cmd)[1];
    match cmd {
      case Put(_, _, v) =>
        assert params[3] == v;
      case Cput(_, _, e, v) =>
        assert params[0] != "PUT " by { assert |params[0]| == 5; }
        assert params[3] == e && params[4] == v;
      case Delete(_, _) =>
        assert |params[0]| == 7;
        assert params[0] != "PUT " && params[0] != "CPUT ";
    }
  }

  lemma DecodeTooFew(cmd: Cmd, params: seq<string>)
    requires cmd.IsWrite() && 1 <= |params| <= |Fields(cmd)| && params[0] == Verb(cmd)
    ensures Decode(params) == Other
  {
    match cmd {
      case Put(_, _, _) =>
        assert params[0][0] == 'P' && |params[0]| == 4;
        assert params[0] != "CPUT " && params[0] != "DELETE " && params[0] != "GET ";
      case Cput(_, _, _, _) =>
        assert |params[0]| == 5;
        assert params[0] != "PUT " && params[0] != "DELETE " && params[0] != "GET ";
      case Delete(_, _) =>
        assert |params[0]| == 7;
        assert params[0] != "PUT " && params[0] != "CPUT " && params[0] != "GET ";
    }
  }

  /** A write is decoded exactly from its verb and its fields with anything behind
      them, a GET exactly from its verb and its two fields. */
  lemma DecodeExact(params: seq<string>, cmd: Cmd)
    requires |params| >= 1 && !cmd.Other?
    ensures Decode(params) == cmd <==>
      var n := 1 + |Fields(cmd)|;
      && (if cmd.Get? then |params| == n else |params| >= n)
      && params[0] == Verb(cmd) && params[1..n] == Fields(cmd)
  {
    var n := 1 + |Fields(cmd)|;
    if |params| >= n && params[0] == Verb(cmd) && params[1..n] == Fields(cmd) {
      assert params == [Verb(cmd)] + Fields(cmd) + params[n..];
      if cmd.IsWrite() {
        DecodeFields(cmd, params[n..]);
      } else if |params| == n {
        assert params == ["GET ", cmd.row, cmd.col];
      }
    }
  }

  /** s is the verb with any of its letters in lower case. */
  predicate Spells(s: string, verb: string) {
    |s| == |verb| && forall k :: 0 <= k < |s| ==>
      s[k] == verb[k] || ('A' <= verb[k] <= 'Z' && s[k] as int == verb[k] as int + 32)
  }

  /** The verb may be written in any mixture of cases. */
  lemma VerbInAnyCase(cmd: Cmd, spelled: string, rest: string)
    requires !cmd.Other? && Spells(spelled, Verb(cmd))
    ensures SplitKVStoreCommand(spelled + rest) == [Verb(cmd)] + Pieces(rest, ',')
  {
    var line := spelled + rest;
    var n := |spelled| - 1;
    UpperVerb(cmd);
    assert forall k :: 0 <= k <= n ==> line[k] == spelled[k];
    SpelledEnd(spelled, Verb(cmd));
    UntilIs(line, ' ', n);
    assert line[..n + 1] == spelled && line[n + 1..] == rest;
    assert Upper(spelled) == Verb(cmd);
  }

  lemma SpelledEnd(spelled: string, verb: string)
    requires Spells(spelled, verb) && |verb| >= 1 && forall k :: 0 <= k < |verb| ==> !('a' <= verb[k] <= 'z')
    requires verb[|verb| - 1] == ' ' && forall k :: 0 <= k < |verb| - 1 ==> verb[k] != ' '
    ensures spelled[|verb| - 1] == ' ' && forall k :: 0 <= k < |verb| - 1 ==> spelled[k] != ' '
    ensures Upper(spelled) == verb
  {
    forall k | 0 <= k < |verb|
      ensures UpperChar(spelled[k]) == verb[k]
    {
    }
  }

  /** A printed line parses back to its own command exactly when its last field
      is not empty; with an empty last field it parses to no command at all. */
  lemma LineRoundTrip(cmd: Cmd)
    requires cmd.IsWrite() && CommaFree(cmd)
    ensures CmdOf(Print(cmd)) == cmd <==> LastField(cmd) != ""
    ensures LastField(cmd) == "" ==> CmdOf(Print(cmd)) == Other
  {
    VerbSplit(cmd, Commas(Fields(cmd)));
    PiecesOfJoin(Fields(cmd), ',');
    if LastField(cmd) == "" {
      DecodeTooFew(cmd, [Verb(cmd)] + Fields(cmd)[..|Fields(cmd)| - 1]);
    } else {
      DecodeFields(cmd, []);
      assert [Verb(cmd)] + Fields(cmd) + [] == [Verb(cmd)] + Fields(cmd);
    }
  }

  /** So is a printed write, as long as its last field is not empty. */
  lemma LineInAnyCase(cmd: Cmd, spelled: string)
    requires cmd.IsWrite() && CommaFree(cmd) && Spells(spelled, Verb(cmd))
    ensures SplitKVStoreCommand(spelled + Commas(Fields(cmd))) == SplitKVStoreCommand(Print(cmd))
    ensures CmdOf(spelled + Commas(Fields(cmd))) == cmd <==> LastField(cmd) != ""
  {
    VerbInAnyCase(cmd, spelled, Commas(Fields(cmd)));
    VerbSplit(cmd, Commas(Fields(cmd)));
    LineRoundTrip(cmd);
  }

  lemma OriginFields(cmd: Cmd, tag: string)
    requires cmd.IsWrite()
    requires tag == TAG_PRIMARY || tag == TAG_SECONDARY
    ensures OriginOf([Verb(cmd)] + Fields(cmd) + [tag]) == if tag == TAG_PRIMARY then FromPrimary else FromSecondary
  {
    TagsDiffer(tag);
    var params := [Verb(cmd)] + Fields(cmd) + [tag];
    assert |params| >= 4 && params[0] == Verb(cmd) && params[|params| - 1] == tag;
  }

  lemma TaggedSplit(cmd: Cmd, tag: string)
    requires cmd.IsWrite() && CommaFree(cmd) && tag != "" && ',' !in tag
    ensures SplitKVStoreCommand(Print(cmd) + "," + tag) == [Verb(cmd)] + Fields(cmd) + [tag]
  {
    var fs := Fields(cmd) + [tag];
    TaggedText(Verb(cmd), Fields(cmd), tag);
    VerbSplit(cmd, Commas(fs));
    PiecesOfJoin(fs, ',');
    Regroup([Verb(cmd)], Fields(cmd), [tag]);
  }

  lemma TaggedText(verb: string, fields: seq<string>, tag: string)
    requires |fields| >= 1
    ensures verb + Commas(fields) + "," + tag == verb + Commas(fields + [tag])
  {
    JoinSnoc(fields, tag, ',');
    Regroup(Commas(fields), ",", tag);
    Regroup(verb, Commas(fields), "," + tag);
    Regroup(verb + Commas(fields), ",", tag);
  }

  /** A forwarded command is read back with all its fields, empty ones included,
      and with its sender. */
  lemma ForwardRoundTrip(cmd: Cmd, tag: string)
    requires cmd.IsWrite() && CommaFree(cmd)
    requires tag == TAG_PRIMARY || tag == TAG_SECONDARY
    ensures
      var params := SplitKVStoreCommand(Print(cmd) + "," + tag);
      && params == [Verb(cmd)] + Fields(cmd) + [tag]
      && Decode(params) == cmd
      && OriginOf(params) == if tag == TAG_PRIMARY then FromPrimary else FromSecondary
  {
    TagsDiffer(tag);
    TaggedSplit(cmd, tag);
    DecodeFields(cmd, [tag]);
    OriginFields(cmd, tag);
  }

  lemma TagsDiffer(tag: string)
    requires tag == TAG_PRIMARY || tag == TAG_SECONDARY
    ensures tag != "" && |tag| % 4 != 0 && ',' !in tag
    ensures tag == TAG_PRIMARY <==> tag != TAG_SECONDARY
  {
    assert |TAG_PRIMARY| == 7 && |TAG_SECONDARY| == 9;
  }

  /** The line put into a dead-server log: the text before the last ",PRIMARY" */
  function StripTag(text: string): (r: Maybe<string>) {
    var pos := RFind(text, "," + TAG_PRIMARY, |text|);
    if pos == -1 then Nothing else Just(text[..pos])
  }

  /** There is no comma after the one that starts the tag. */
  lemma TagTail(text: string, k: nat, n: nat)
    requires n < k < |text| && text[n..] == "," + TAG_PRIMARY + CRLF
    ensures text[k] != ','
  {
    var tail := "," + TAG_PRIMARY + CRLF;
    assert text[k] == text[n..][k - n] == tail[k - n];
  }

  /** No field can hide the tag: stripping always gives back the printed line. */
  lemma StripRoundTrip(cmd: Cmd)
    ensures StripTag(ToSecondaries(cmd)) == Just(Print(cmd))
  {
    var text, needle, n := ToSecondaries(cmd), "," + TAG_PRIMARY, |Print(cmd)|;
    assert text[n..] == needle + CRLF && text[..n] == Print(cmd);
    assert At(text, needle, n) by {
      assert text[n..n + |needle|] == text[n..][..|needle|] == needle;
    }
    var pos := RFind(text, needle, |text|);
    assert n <= pos;
    if n < pos {
      assert text[pos] == text[pos..pos + |needle|][0] == ',';
      TagTail(text, pos, n);
    }
  }

  /** A client's write is taken for a forwarded one exactly when it has at least
      three fields and its last field is one of the two tags. */
  lemma ClientOrigin(cmd: Cmd)
    requires WellFormed(cmd)
    ensures OriginOf(SplitKVStoreCommand(Print(cmd))) == FromFrontend
       <==> cmd.Delete? || LastField(cmd) !in {TAG_PRIMARY, TAG_SECONDARY}
  {
    VerbSplit(cmd, Commas(Fields(cmd)));
    PiecesOfJoin(Fields(cmd), ',');
    FieldsOrigin(cmd);
  }

  lemma FieldsOrigin(cmd: Cmd)
    requires cmd.IsWrite()
    ensures OriginOf([Verb(cmd)] + Fields(cmd)) == FromFrontend
       <==> cmd.Delete? || LastField(cmd) !in {TAG_PRIMARY, TAG_SECONDARY}
  {
    var params := [Verb(cmd)] + Fields(cmd);
    assert params[|params| - 1] == LastField(cmd) && |params| == 1 + |Fields(cmd)|;
    assert params[0] in {"PUT ", "CPUT ", "DELETE "};
  }

  /** A base64 value has a length divisible by four, so it is never mistaken for
      a tag. */
  lemma Base64NeverForwarded(cmd: Cmd)
    requires WellFormed(cmd) && |LastField(cmd)| % 4 == 0
    ensures OriginOf(SplitKVStoreCommand(Print(cmd))) == FromFrontend
  {
    ClientOrigin(cmd);
    if LastField(cmd) in {TAG_PRIMARY, TAG_SECONDARY} {
      TagsDiffer(LastField(cmd));
    }
  }

  /** Parsed fields never hold a comma, whatever the line was. */
  lemma DecodedCommaFree(line: string)
    ensures CommaFree(CmdOf(line))
  {
    DecodedFieldsFrom(SplitKVStoreCommand(line));
  }

  /** A line without newline gives fields without newline. */
  lemma {:induction false} PiecesInherit(s: string, d: char, x: char)
    requires x !in s
    ensures forall p :: p in Pieces(s, d) ==> x !in p
    decreases |s|
  {
    if s != [] {
      var n := Until(s, d);
      if n < |s| {
        PiecesInherit(s[n + 1..], d, x);
      }
    }
  }

  lemma DecodedNewlineFree(line: string)
    requires NEWLINE !in line
    ensures forall f :: f in Fields(CmdOf(line)) ==> NEWLINE !in f
  {
    var n := Until(line, ' ');
    PiecesInherit(line, ',', NEWLINE);
    if n < |line| {
      PiecesInherit(line[n + 1..], ',', NEWLINE);
    }
    DecodedFieldsFrom(SplitKVStoreCommand(line));
  }

  /** Every field of a decoded command is one of the parameters after the verb. */
  lemma DecodedFieldsFrom(params: seq<string>)
    requires |params| >= 1
    ensures forall f :: f in Fields(Decode(params)) ==> f in params[1..]
  {
    forall f | f in Fields(Decode(params))
      ensures f in params[1..]
    {
      assert exists i :: 1 <= i < |params| && params[i] == f;
      var i :| 1 <= i < |params| && params[i] == f;
      assert params[1..][i - 1] == f;
    }
  }

  lemma {:induction false} CommasNewlineFree(fs: seq<string>)
    requires forall f :: f in fs ==> NEWLINE !in f
    ensures NEWLINE !in Commas(fs)
  {
    if |fs| > 1 {
      CommasNewlineFree(fs[1..]);
      assert Commas(fs) == fs[0] + [','] + Commas(fs[1..]);
    }
  }

  /** Writing a command to a log adds one line, which holds exactly that command
      unless its last field is empty. */
  lemma LogAppend(file: string, cmd: Cmd)
    requires Terminated(file, NEWLINE) && OneLine(cmd)
    ensures
      var file' := AppendLine(file, Print(cmd));
      && Lines(file') == Lines(file) + [Print(cmd)]
      && CmdsOf(Lines(file')) == CmdsOf(Lines(file)) + [Logs(cmd)]
      && Terminated(file', NEWLINE)
  {
    CommasNewlineFree(Fields(cmd));
    assert NEWLINE !in Print(cmd);
    LinesAppend(file, Print(cmd));
    LineRoundTrip(cmd);
    CmdsOfSnoc(Lines(file), Print(cmd));
  }

  // ---- Lines cut short ----

  /** The write with another last field */
  function WithLast(cmd: Cmd, w: string): Cmd
    requires cmd.IsWrite()
  {
    match cmd
    case Put(r, c, _) => Put(r, c, w)
    case Cput(r, c, e, _) => Cput(r, c, e, w)
    case Delete(r, _) => Delete(r, w)
    case _ => cmd
  }

  /** The write with only the first k characters of its last field */
  function CutLast(cmd: Cmd, k: nat): Cmd
    requires cmd.IsWrite() && k <= |LastField(cmd)|
  {
    WithLast(cmd, LastField(cmd)[..k])
  }

  /** Where the last field starts in the printed line */
  function LastStart(cmd: Cmd): (n: nat)
    requires cmd.IsWrite()
    ensures n + |LastField(cmd)| == |Print(cmd)|
  {
    PrintedEnd(cmd);
    |Print(cmd)| - |LastField(cmd)|
  }

  /** What the first m characters of the printed line are read as */
  function Torn(cmd: Cmd, m: nat): Cmd
    requires cmd.IsWrite() && m <= |Print(cmd)|
  {
    if m <= LastStart(cmd) then Other else CutLast(cmd, m - LastStart(cmd))
  }

  function Init(cmd: Cmd): (fs: seq<string>)
    requires cmd.IsWrite()
    ensures |fs| == |Fields(cmd)| - 1 >= 1 && fs + [LastField(cmd)] == Fields(cmd)
  {
    Fields(cmd)[..|Fields(cmd)| - 1]
  }

  lemma PrintedEnd(cmd: Cmd)
    requires cmd.IsWrite()
    ensures Print(cmd) == Verb(cmd) + (Commas(Init(cmd)) + [',']) + LastField(cmd)
  {
    var head := Commas(Init(cmd)) + [','];
    JoinSnoc(Init(cmd), LastField(cmd), ',');
    Regroup(Verb(cmd), head, LastField(cmd));
  }

  /** A prefix of fields that all end in a comma holds no more pieces than there
      are fields. */
  lemma {:induction false} FewPieces(fs: seq<string>, q: nat)
    requires |fs| >= 1 && q <= |Commas(fs)| + 1
    requires forall i :: 0 <= i < |fs| ==> ',' !in fs[i]
    ensures |Pieces((Commas(fs) + [','])[..q], ',')| <= |fs|
  {
    var whole, f := Commas(fs) + [','], fs[0];
    var rest := if |fs| == 1 then [] else Commas(fs[1..]) + [','];
    assert whole == f + [','] + rest;
    if q <= |f| {
      assert whole[..q] == f[..q];
      if q > 0 {
        PiecesOfOne(f[..q], ',');
      }
    } else {
      assert whole[..q] == f + [','] + rest[..q - |f| - 1];
      PiecesCons(f, ',', rest[..q - |f| - 1]);
      if |fs| > 1 {
        FewPieces(fs[1..], q - |f| - 1);
      }
    }
  }

  /** A line cut inside its last field reads as the write with that field cut; cut
      before it, as no command. */
  lemma TornLine(cmd: Cmd, m: nat)
    requires OneLine(cmd) && m <= |Print(cmd)|
    ensures CmdOf(Print(cmd)[..m]) == Torn(cmd, m)
  {
    if m > LastStart(cmd) {
      TornInside(cmd, m);
    } else if m < |Verb(cmd)| {
      TornVerb(cmd, m);
    } else {
      TornFields(cmd, m);
    }
  }

  lemma TornVerb(cmd: Cmd, m: nat)
    requires cmd.IsWrite() && m < |Verb(cmd)| && m <= |Print(cmd)|
    ensures CmdOf(Print(cmd)[..m]) == Other
  {
    var line, verb := Print(cmd)[..m], Verb(cmd);
    UpperVerb(cmd);
    PrintedEnd(cmd);
    assert forall k :: 0 <= k < m ==> line[k] == verb[k];
    UntilIs(line, ' ', m);
  }

  lemma TornInside(cmd: Cmd, m: nat)
    requires OneLine(cmd) && LastStart(cmd) < m <= |Print(cmd)|
    ensures CmdOf(Print(cmd)[..m]) == CutLast(cmd, m - LastStart(cmd))
  {
    var k := m - LastStart(cmd);
    CutFields(cmd, k);
    CutText(cmd, k);
    LineRoundTrip(CutLast(cmd, k));
  }

  lemma CutText(cmd: Cmd, k: nat)
    requires OneLine(cmd) && k <= |LastField(cmd)|
    ensures Print(cmd)[..LastStart(cmd) + k] == Print(CutLast(cmd, k))
  {
    var head, last := Verb(cmd) + (Commas(Init(cmd)) + [',']), LastField(cmd);
    CutFields(cmd, k);
    PrintedEnd(cmd);
    PrintedEnd(CutLast(cmd, k));
    assert (head + last)[..|head| + k] == head + last[..k];
  }

  lemma CutFields(cmd: Cmd, k: nat)
    requires OneLine(cmd) && k <= |LastField(cmd)|
    ensures var cut := CutLast(cmd, k);
            OneLine(cut) && Verb(cut) == Verb(cmd) && Init(cut) == Init(cmd) && LastField(cut) == LastField(cmd)[..k]
  {
    assert LastField(cmd) in Fields(cmd);
  }

  lemma TornFields(cmd: Cmd, m: nat)
    requires OneLine(cmd) && |Verb(cmd)| <= m <= LastStart(cmd)
    ensures CmdOf(Print(cmd)[..m]) == Other
  {
    var head, q := Commas(Init(cmd)) + [','], m - |Verb(cmd)|;
    PrintedEnd(cmd);
    assert Print(cmd)[..m] == Verb(cmd) + head[..q];
    VerbSplit(cmd, head[..q]);
    forall i | 0 <= i < |Init(cmd)|
      ensures ',' !in Init(cmd)[i]
    {
      assert Init(cmd)[i] == Fields(cmd)[i];
    }
    FewPieces(Init(cmd), q);
    DecodeTooFew(cmd, [Verb(cmd)] + Pieces(head[..q], ','));
  }

  // ---- Lines run together ----

  lemma WithLastFields(cmd: Cmd, w: string)
    requires cmd.IsWrite()
    ensures
      var g := WithLast(cmd, w);
      g.IsWrite() && Verb(g) == Verb(cmd) && Fields(g) == Init(cmd) + [w]
  {
  }

  predicate AllCommaFree(fs: seq<string>) {
    forall i :: 0 <= i < |fs| ==> ',' !in fs[i]
  }

  lemma OneLineFree(cmd: Cmd)
    requires OneLine(cmd)
    ensures AllCommaFree(Fields(cmd)) && AllCommaFree(Init(cmd)) && ',' !in LastField(cmd) && ',' !in Verb(cmd)
  {
    UpperVerb(cmd);
    forall i | 0 <= i < |Fields(cmd)|
      ensures ',' !in Fields(cmd)[i]
    {
      assert Fields(cmd)[i] in Fields(cmd);
    }
  }

  /** A line put behind a write that was cut inside its last field is read as that
      write, with the verb and the first field of the line in its last field. */
  lemma GluedLine(cmd: Cmd, m: nat, c: Cmd)
    requires OneLine(cmd) && OneLine(c) && LastStart(cmd) < m <= |Print(cmd)|
    ensures CmdOf(Print(cmd)[..m] + Print(c)) == Glued(cmd, m, c)
  {
    var w, rest := GluedField(cmd, m, c), Fields(c)[1..];
    GluedText(cmd, m, c);
    OneLineFree(cmd);
    OneLineFree(c);
    ExtraFields(cmd, w, rest);
  }

  /** What runs together */
  function GluedField(cmd: Cmd, m: nat, c: Cmd): string
    requires cmd.IsWrite() && c.IsWrite() && LastStart(cmd) < m <= |Print(cmd)|
  {
    LastField(cmd)[..m - LastStart(cmd)] + (Verb(c) + Fields(c)[0])
  }

  function Glued(cmd: Cmd, m: nat, c: Cmd): Cmd
    requires cmd.IsWrite() && c.IsWrite() && LastStart(cmd) < m <= |Print(cmd)|
  {
    WithLast(cmd, GluedField(cmd, m, c))
  }

  /** Fields behind those of a write are ignored. */
  lemma ExtraFields(cmd: Cmd, w: string, rest: seq<string>)
    requires cmd.IsWrite() && |rest| >= 1
    requires AllCommaFree(Init(cmd)) && ',' !in w && AllCommaFree(rest)
    ensures CmdOf(Verb(cmd) + Commas(Init(cmd) + [w] + rest)) == WithLast(cmd, w)
  {
    var g := WithLast(cmd, w);
    WithLastFields(cmd, w);
    VerbSplit(cmd, Commas(Fields(g) + rest));
    var kept := PiecesKept(Fields(g), rest);
    DecodeFields(g, kept);
    Regroup([Verb(g)], Fields(g), kept);
  }

  lemma PiecesKept(fs: seq<string>, rest: seq<string>) returns (kept: seq<string>)
    requires |rest| >= 1 && AllCommaFree(fs) && AllCommaFree(rest)
    ensures Pieces(Commas(fs + rest), ',') == fs + kept
  {
    var n := |rest| - 1;
    PiecesOfJoin(fs + rest, ',');
    kept := if rest[n] == "" then rest[..n] else rest;
    assert (fs + rest)[..|fs + rest| - 1] == fs + rest[..n];
  }

  lemma {:induction false} JoinConcat(fs: seq<string>, w: string, gs: seq<string>)
    requires |gs| >= 1
    ensures Commas(fs + [w] + gs) == (if fs == [] then "" else Commas(fs) + [',']) + w + [','] + Commas(gs)
  {
    if fs == [] {
      assert fs + [w] + gs == [w] + gs;
      assert ([w] + gs)[1..] == gs;
    } else {
      var all := fs + [w] + gs;
      assert all[1..] == fs[1..] + [w] + gs;
      JoinConcat(fs[1..], w, gs);
      if |fs| > 1 {
        assert Commas(fs) == fs[0] + [','] + Commas(fs[1..]);
      }
    }
  }

  lemma GluedText(cmd: Cmd, m: nat, c: Cmd)
    requires cmd.IsWrite() && c.IsWrite() && LastStart(cmd) < m <= |Print(cmd)|
    ensures Print(cmd)[..m] + Print(c) == Verb(cmd) + Commas(Init(cmd) + [GluedField(cmd, m, c)] + Fields(c)[1..])
  {
    var last, f, rest := LastField(cmd)[..m - LastStart(cmd)], Fields(c)[0], Fields(c)[1..];
    var head := Commas(Init(cmd)) + [','];
    PrintedEnd(cmd);
    assert Print(cmd)[..m] == Verb(cmd) + head + last;
    assert Fields(c) == [] + [f] + rest;
    JoinConcat([], f, rest);
    JoinConcat(Init(cmd), GluedField(cmd, m, c), rest);
    GlueStrings(Verb(cmd), head, last, Verb(c), f, Commas(rest));
  }

  lemma GlueStrings(verb: string, head: string, last: string, verb': string, f: string, rest: string)
    ensures verb + head + last + (verb' + ("" + f + [','] + rest)) ==
      verb + (head + (last + (verb' + f)) + [','] + rest)
  {
  }

  // ---- Replies ----

  /** msg at the end of handleCommand; Silent is a message left empty. */
  datatype Reply = Ok | Found(value: string) | Error | Listing | Silent

  /** What handleCommand answers when it runs params against its own table */
  function LocalReply(t: Table, params: seq<string>): Reply
    requires |params| >= 1
  {
    var cmd := Decode(params);
    if cmd.IsWrite() then (if Succeeds(t, cmd) then Ok else Error)
    else if cmd.Get? then GetReply(t, cmd.row, cmd.col)
    else if params[0] == "LIST " then Listing
    else Error
  }

  function GetReply(t: Table, r: string, c: string): Reply {
    if r in t && c in t[r] then Found(t[r][c]) else Error
  }

  /** OK is the answer to a write that takes effect, a value the answer to a GET of an
      entry that exists, a listing that to LIST, an error that to everything else. */
  ghost predicate RightAnswer(t: Table, params: seq<string>, reply: Reply)
    requires |params| >= 1
  {
    var cmd := Decode(params);
    && (reply == Ok <==> cmd.Put? || cmd.Delete? || (cmd.Cput? && Lookup(t, cmd.row, cmd.col) == cmd.expected))
    && (forall v :: reply == Found(v) <==>
         cmd.Get? && cmd.row in t && cmd.col in t[cmd.row] && v == t[cmd.row][cmd.col])
    && (reply == Listing <==> params[0] == "LIST ")
    && reply != Silent
  }

  lemma LocalAnswer(t: Table, params: seq<string>)
    requires |params| >= 1
    ensures RightAnswer(t, params, LocalReply(t, params))
  {
  }
}

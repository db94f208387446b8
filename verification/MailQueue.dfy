/** The mail queue file of the relay (smtp/smtpec.cc): read back as mails, partly
    delivered, rewritten; the mail server appends to it between the passes. */
module MailQueue {
  import opened Text

  const FROM: string := "From <"
  const TO: string := "To <"
  const CLOSE: char := '>'
  const NUL: char := '\0'
  /** Characters getline fits into char line[4096] */
  const LIMIT: nat := 4095

  datatype Mail = Mail(sender: string, recipient: string, content: string, sent: bool)

  // ---- Reading ----

  /** A line as the C string functions see it */
  function CText(line: string): (r: string)
    ensures NUL !in r && r <= line
    ensures NUL !in line ==> r == line
  {
    line[..Until(line, NUL)]
  }

  predicate Marked(line: string, marker: string) {
    Find(line, marker, 0) != -1
  }

  /** The text after the marker up to the first closing bracket of the line; when
      that bracket is missing or comes before, substr runs to the end. */
  function Field(line: string, marker: string): string
    requires Marked(line, marker)
  {
    var start := Find(line, marker, 0) + |marker|;
    var end := IndexOf(line, CLOSE);
    if end == -1 || end < start then line[start..] else line[start..end]
  }

  /** The variables of the reading loop and the mails saved so far */
  datatype Scan = Scan(mails: seq<Mail>, inEmail: bool, sender: string, recipient: string, content: string)

  /** The mails, with the one being read */
  function Finish(st: Scan): seq<Mail> {
    if st.inEmail then st.mails + [Mail(st.sender, st.recipient, st.content, false)] else st.mails
  }

  /** One line. The test for two newlines within a line never holds. */
  function TakeLine(st: Scan, raw: string): Scan {
    var line := CText(raw);
    if Marked(line, FROM) then
      Scan(Finish(st), true, Field(line, FROM), st.recipient, if st.inEmail then "" else st.content)
    else if Marked(line, TO) then st.(recipient := Field(line, TO))
    else if st.inEmail then st.(content := st.content + line + [NEWLINE])
    else st
  }

  /** Reading stops at a line that does not fit. */
  function TakeLines(st: Scan, raws: seq<string>): Scan
    decreases |raws|
  {
    if raws == [] || |raws[0]| > LIMIT then st else TakeLines(TakeLine(st, raws[0]), raws[1..])
  }

  function Start(mails: seq<Mail>): Scan {
    Scan(mails, false, "", "", "")
  }

  function Parse(file: string): seq<Mail> {
    Finish(TakeLines(Start([]), Lines(file)))
  }

  // ---- Writing ----

  /** One mail in the file: the relay ends its two header lines with eol "\r", the
      mail server with eol "". */
  function MailText(m: Mail, eol: string): string {
    HeaderLine(FROM, m.sender, eol) + [NEWLINE] + (HeaderLine(TO, m.recipient, eol) + [NEWLINE] + m.content)
  }

  function HeaderLine(marker: string, address: string, eol: string): string {
    marker + address + [CLOSE] + eol
  }

  predicate IsEol(eol: string) {
    eol == "" || eol == "\r"
  }

  /** The rewritten file */
  function Print(mails: seq<Mail>): string {
    if mails == [] then ""
    else
      var n := |mails| - 1;
      Print(mails[..n]) + if mails[n].sent then "" else MailText(mails[n], "\r")
  }

  // ---- Which mails survive ----

  predicate Address(a: string) {
    NEWLINE !in a && NUL !in a && CLOSE !in a
  }

  predicate Plain(line: string) {
    |line| <= LIMIT && NUL !in line && !Marked(line, FROM) && !Marked(line, TO)
  }

  predicate Good(m: Mail, eol: string) {
    && Address(m.sender) && |HeaderLine(FROM, m.sender, eol)| <= LIMIT
    && Address(m.recipient) && |HeaderLine(TO, m.recipient, eol)| <= LIMIT
    && !Marked(m.recipient, FROM)
    && Terminated(m.content, NEWLINE)
    && forall l :: l in Lines(m.content) ==> Plain(l)
  }

  // ---- Header lines ----

  lemma HeaderField(marker: string, address: string, eol: string)
    requires Address(address) && Address(marker) && IsEol(eol)
    ensures NEWLINE !in HeaderLine(marker, address, eol)
    ensures CText(HeaderLine(marker, address, eol)) == HeaderLine(marker, address, eol)
    ensures Marked(HeaderLine(marker, address, eol), marker)
    ensures Field(HeaderLine(marker, address, eol), marker) == address
  {
    var line := HeaderLine(marker, address, eol);
    assert line[..|marker|] == marker;
    FindIs(line, marker, 0, 0);
    assert line[..|marker| + |address|] == marker + address;
    IndexIs(line, CLOSE, |marker| + |address|);
    assert line[|marker|..|marker| + |address|] == address;
  }

  lemma MarkerInLine(r: string, eol: string)
    requires IsEol(eol) && Marked(HeaderLine(TO, r, eol), FROM)
    ensures Marked(r, FROM)
  {
    var line := HeaderLine(TO, r, eol);
    var k := Find(line, FROM, 0);
    assert line[k] == line[k..k + 6][0] == 'F' && line[k + 5] == line[k..k + 6][5] == '<';
    assert line == "To <" + r + [CLOSE] + eol;
    assert k >= 4 && k + 5 < 4 + |r|;
    assert line[k..k + 6] == r[k - 4..k + 2];
    assert At(r, FROM, k - 4);
  }

  lemma MarkerInRecipient(r: string, eol: string)
    requires Marked(r, FROM)
    ensures Marked(HeaderLine(TO, r, eol), FROM)
  {
    var line, j := HeaderLine(TO, r, eol), Find(r, FROM, 0);
    assert line == "To <" + r + [CLOSE] + eol;
    assert r[j..j + 6] == line[j + 4..j + 10];
    assert At(line, FROM, j + 4);
  }

  /** A recipient line starts a mail exactly when the recipient holds the marker. */
  lemma ToLineMarked(r: string, eol: string)
    requires IsEol(eol)
    ensures Marked(HeaderLine(TO, r, eol), FROM) <==> Marked(r, FROM)
  {
    if Marked(r, FROM) {
      MarkerInRecipient(r, eol);
    }
    if Marked(HeaderLine(TO, r, eol), FROM) {
      MarkerInLine(r, eol);
    }
  }

  // ---- Reading back ----

  predicate Ready(st: Scan) {
    st.inEmail || st.content == ""
  }

  lemma {:induction false} TakeLinesReady(st: Scan, raws: seq<string>)
    requires Ready(st)
    ensures Ready(TakeLines(st, raws))
    decreases |raws|
  {
    if raws != [] && |raws[0]| <= LIMIT {
      TakeLinesReady(TakeLine(st, raws[0]), raws[1..]);
    }
  }

  predicate Fitting(raws: seq<string>) {
    forall l :: l in raws ==> |l| <= LIMIT
  }

  lemma {:induction false} TakeLinesAppend(st: Scan, a: seq<string>, b: seq<string>)
    requires Fitting(a)
    ensures TakeLines(st, a + b) == TakeLines(TakeLines(st, a), b)
    decreases |a|
  {
    if a == [] {
      assert a + b == b;
    } else {
      assert (a + b)[1..] == a[1..] + b && a[0] in a;
      TakeLinesAppend(TakeLine(st, a[0]), a[1..], b);
    }
  }

  function Unlines(ls: seq<string>): string
    decreases |ls|
  {
    if ls == [] then "" else ls[0] + [NEWLINE] + Unlines(ls[1..])
  }

  /** A terminated text is its lines with newlines. */
  lemma {:induction false} UnlinesLines(s: string)
    requires Terminated(s, NEWLINE)
    ensures Unlines(Lines(s)) == s
    decreases |s|
  {
    if s != [] {
      var n := Until(s, NEWLINE);
      assert s == s[..n] + [NEWLINE] + s[n + 1..];
      UnlinesLines(s[n + 1..]);
    }
  }

  lemma {:induction false} TakePlain(st: Scan, ls: seq<string>)
    requires st.inEmail
    requires forall l :: l in ls ==> Plain(l)
    ensures TakeLines(st, ls) == st.(content := st.content + Unlines(ls))
    decreases |ls|
  {
    if ls != [] {
      var l := ls[0];
      assert l in ls;
      var next := st.(content := st.content + l + [NEWLINE]);
      assert TakeLine(st, l) == next;
      TakePlain(next, ls[1..]);
      Regroup(st.content, l, [NEWLINE]);
      Regroup(st.content, l + [NEWLINE], Unlines(ls[1..]));
    }
  }

  lemma MailLines(m: Mail, eol: string)
    requires Address(m.sender) && Address(m.recipient) && IsEol(eol)
    ensures Lines(MailText(m, eol))
         == [HeaderLine(FROM, m.sender, eol)] + ([HeaderLine(TO, m.recipient, eol)] + Lines(m.content))
  {
    HeaderField(FROM, m.sender, eol);
    HeaderField(TO, m.recipient, eol);
    PiecesCons(HeaderLine(TO, m.recipient, eol), NEWLINE, m.content);
    PiecesCons(HeaderLine(FROM, m.sender, eol), NEWLINE, HeaderLine(TO, m.recipient, eol) + [NEWLINE] + m.content);
  }

  /** Reading one good mail saves the mail before it and ends holding this one. */
  lemma TakeMail(st: Scan, m: Mail, eol: string)
    requires Ready(st) && Good(m, eol) && IsEol(eol)
    ensures TakeLines(st, Lines(MailText(m, eol))) == Scan(Finish(st), true, m.sender, m.recipient, m.content)
  {
    var from, to, body := HeaderLine(FROM, m.sender, eol), HeaderLine(TO, m.recipient, eol), Lines(m.content);
    MailLines(m, eol);
    TakeHeaders(st, m, eol);
    TakeTwo(st, from, to, body);
    TakePlain(Scan(Finish(st), true, m.sender, m.recipient, ""), body);
    UnlinesLines(m.content);
  }

  lemma TakeHeaders(st: Scan, m: Mail, eol: string)
    requires Ready(st) && Good(m, eol) && IsEol(eol)
    ensures TakeLine(TakeLine(st, HeaderLine(FROM, m.sender, eol)), HeaderLine(TO, m.recipient, eol))
         == Scan(Finish(st), true, m.sender, m.recipient, "")
  {
    HeaderField(FROM, m.sender, eol);
    assert TakeLine(st, HeaderLine(FROM, m.sender, eol)) == Scan(Finish(st), true, m.sender, st.recipient, "");
    HeaderField(TO, m.recipient, eol);
    ToLineMarked(m.recipient, eol);
  }

  lemma TakeTwo(st: Scan, a: string, b: string, more: seq<string>)
    requires |a| <= LIMIT && |b| <= LIMIT
    ensures TakeLines(st, [a] + ([b] + more)) == TakeLines(TakeLine(TakeLine(st, a), b), more)
  {
    assert ([a] + ([b] + more))[1..] == [b] + more;
    assert ([b] + more)[1..] == more;
  }

  predicate Readable(file: string) {
    Terminated(file, NEWLINE) && Fitting(Lines(file))
  }

  lemma TextReadable(m: Mail, eol: string)
    requires Good(m, eol) && IsEol(eol)
    ensures Readable(MailText(m, eol))
  {
    MailLines(m, eol);
    TextTerminated(HeaderLine(FROM, m.sender, eol) + [NEWLINE] + HeaderLine(TO, m.recipient, eol), m.content);
  }

  lemma TextTerminated(head: string, content: string)
    requires Terminated(content, NEWLINE)
    ensures Terminated(head + [NEWLINE] + content, NEWLINE)
  {
  }

  lemma ReadableAppend(file: string, text: string)
    requires Readable(file) && Readable(text)
    ensures Readable(file + text)
  {
    PiecesAppend(file, text, NEWLINE);
    if text == "" {
      assert file + text == file;
    } else {
      assert (file + text)[|file + text| - 1] == text[|text| - 1];
    }
  }

  /** Appending a good mail to any readable file appends it to the mails read. */
  lemma ParseAppend(file: string, m: Mail, eol: string)
    requires Readable(file) && Good(m, eol) && IsEol(eol)
    ensures Parse(file + MailText(m, eol)) == Parse(file) + [m.(sent := false)]
    ensures Readable(file + MailText(m, eol))
  {
    var text := MailText(m, eol);
    TakeMail(TakeLines(Start([]), Lines(file)), m, eol) by {
      TakeLinesReady(Start([]), Lines(file));
    }
    TextReadable(m, eol);
    ReadableAppend(file, text);
    ParseConcat(file, text);
  }

  lemma ParseConcat(file: string, text: string)
    requires Readable(file)
    ensures Parse(file + text) == Finish(TakeLines(TakeLines(Start([]), Lines(file)), Lines(text)))
  {
    PiecesAppend(file, text, NEWLINE);
    TakeLinesAppend(Start([]), Lines(file), Lines(text));
  }
}

/** Exactly which mails come back from the queue file. */
module QueueLaws {
  import opened Text
  import opened MailQueue

  // ---- Reading without a new mail starting ----

  /** What reading further lines can do when no mail starts in them: the content
      grows by at most their size, and by exactly that only if all are plain. */
  function Size(ls: seq<string>): nat
    decreases |ls|
  {
    if ls == [] then 0 else |ls[0]| + 1 + Size(ls[1..])
  }

  lemma {:induction false} SizeOfLines(s: string)
    requires Terminated(s, NEWLINE)
    ensures Size(Lines(s)) == |s|
    decreases |s|
  {
    if s != [] {
      SizeOfLines(s[Until(s, NEWLINE) + 1..]);
    }
  }

  lemma {:induction false} MailsGrow(st: Scan, ls: seq<string>)
    ensures |Finish(TakeLines(st, ls))| >= |Finish(st)|
    decreases |ls|
  {
    if ls != [] && |ls[0]| <= LIMIT {
      MailsGrow(TakeLine(st, ls[0]), ls[1..]);
    }
  }

  /** Reading on without a new mail starting */
  lemma TakeOther(st: Scan, l: string)
    requires st.inEmail && |Finish(TakeLine(st, l))| == |Finish(st)|
    ensures var next := TakeLine(st, l);
            && next.inEmail && next.mails == st.mails && next.sender == st.sender
            && |next.content| <= |st.content| + |l| + 1
            && (|next.content| == |st.content| + |l| + 1 && |l| <= LIMIT ==> Plain(l) && next.recipient == st.recipient)
            && (Terminated(st.content, NEWLINE) ==> Terminated(next.content, NEWLINE))
            && (NEWLINE !in l && NEWLINE !in st.recipient ==> NEWLINE !in next.recipient)
  {
    var line := CText(l);
    if !Marked(line, FROM) && !Marked(line, TO) && |line| == |l| {
      assert line == l;
    }
  }

  lemma {:induction false} TakeOthers(st: Scan, ls: seq<string>)
    requires st.inEmail && |Finish(TakeLines(st, ls))| == |Finish(st)|
    ensures var fin := TakeLines(st, ls);
            && fin.inEmail && fin.mails == st.mails && fin.sender == st.sender
            && |fin.content| <= |st.content| + Size(ls)
            && (|fin.content| == |st.content| + Size(ls) ==>
                  (forall l :: l in ls ==> Plain(l)) && fin.recipient == st.recipient)
            && (Terminated(st.content, NEWLINE) ==> Terminated(fin.content, NEWLINE))
            && ((forall l :: l in ls ==> NEWLINE !in l) && NEWLINE !in st.recipient ==> NEWLINE !in fin.recipient)
    decreases |ls|
  {
    if ls != [] && |ls[0]| <= LIMIT {
      var next := TakeLine(st, ls[0]);
      MailsGrow(st, [ls[0]]);
      assert TakeLines(next, [ls[0]][1..]) == next;
      MailsGrow(next, ls[1..]);
      TakeOther(st, ls[0]);
      TakeOthers(next, ls[1..]);
      assert forall l :: l in ls ==> l == ls[0] || l in ls[1..];
    }
  }

  /** A field at the start of a line is an address. */
  lemma FieldIsAddress(line: string, marker: string)
    requires Address(marker) && NEWLINE !in line && NUL !in line && marker <= line
    ensures Marked(line, marker) && Address(Field(line, marker))
  {
    assert line[0..|marker|] == marker;
    FindIs(line, marker, 0, 0);
    assert forall k :: 0 <= k < |marker| ==> line[k] == marker[k];
  }

  /** A text that starts with a marker has a first line that does. */
  lemma FirstLineMarked(text: string, marker: string)
    requires Address(marker) && marker <= text && marker != ""
    ensures Lines(text) != [] && marker <= Lines(text)[0] && marker <= CText(Lines(text)[0])
  {
    assert forall k :: 0 <= k < |marker| ==> text[k] == marker[k];
    var l := text[..Until(text, NEWLINE)];
    assert Lines(text)[0] == l;
    assert forall k :: 0 <= k < |marker| ==> l[k] == marker[k];
  }

  function RestText(m: Mail, eol: string): string {
    HeaderLine(TO, m.recipient, eol) + [NEWLINE] + m.content
  }

  lemma LinesFrom(m: Mail, eol: string)
    requires NEWLINE !in m.sender && IsEol(eol)
    ensures Lines(MailText(m, eol)) == [HeaderLine(FROM, m.sender, eol)] + Lines(RestText(m, eol))
  {
    PiecesCons(HeaderLine(FROM, m.sender, eol), NEWLINE, RestText(m, eol));
  }

  lemma LinesTo(m: Mail, eol: string)
    requires NEWLINE !in m.recipient && IsEol(eol)
    ensures Lines(RestText(m, eol)) == [HeaderLine(TO, m.recipient, eol)] + Lines(m.content)
  {
    PiecesCons(HeaderLine(TO, m.recipient, eol), NEWLINE, m.content);
  }

  lemma ToCText(r: string, eol: string)
    ensures TO <= CText(HeaderLine(TO, r, eol)) && TO <= HeaderLine(TO, r, eol)
  {
    var line := HeaderLine(TO, r, eol);
    assert line[0] == 'T' && line[1] == 'o' && line[2] == ' ' && line[3] == '<';
    assert CText(line)[..4] == TO && line[..4] == TO;
  }

  // ---- The mail being read ----

  /** Mails saved stay saved. */
  lemma {:induction false} SavedStay(st: Scan, ls: seq<string>)
    ensures st.mails <= Finish(TakeLines(st, ls)) && Finish(st)[..|st.mails|] == st.mails
    decreases |ls|
  {
    if ls != [] && |ls[0]| <= LIMIT {
      SavedStay(TakeLine(st, ls[0]), ls[1..]);
      assert st.mails <= TakeLine(st, ls[0]).mails;
    }
  }

  /** The mail being read is complete at the first line that starts another one or
      does not fit. */
  lemma {:induction false} FirstStop(st: Scan, ls: seq<string>) returns (q: nat, fin: Scan)
    requires st.inEmail
    ensures q <= |ls| && fin == TakeLines(st, ls[..q]) && fin.inEmail && |Finish(fin)| == |Finish(st)|
    ensures |Finish(TakeLines(st, ls))| > |st.mails|
    ensures Finish(TakeLines(st, ls))[|st.mails|] == Mail(fin.sender, fin.recipient, fin.content, false)
    ensures q < |ls| ==> |ls[q]| > LIMIT || Marked(CText(ls[q]), FROM)
    ensures forall i :: 0 <= i < q ==> |ls[i]| <= LIMIT && !Marked(CText(ls[i]), FROM)
    decreases |ls|
  {
    q, fin := 0, st;
    assert ls[..0] == [];
    if ls != [] && |ls[0]| <= LIMIT {
      var next := TakeLine(st, ls[0]);
      if Marked(CText(ls[0]), FROM) {
        SavedStay(next, ls[1..]);
        assert next.mails[|st.mails|] == Mail(st.sender, st.recipient, st.content, false);
      } else {
        var q', fin' := FirstStop(next, ls[1..]);
        q, fin := q' + 1, fin';
        assert ls[..q][0] == ls[0] && ls[..q][1..] == ls[1..][..q'];
      }
    }
  }

  /** Every mail read has an empty content or one that ends in a newline. */
  lemma {:induction false} ContentsTerminated(st: Scan, ls: seq<string>, i: nat)
    requires Terminated(st.content, NEWLINE) && |st.mails| <= i < |Finish(TakeLines(st, ls))|
    ensures Terminated(Finish(TakeLines(st, ls))[i].content, NEWLINE)
    ensures !Finish(TakeLines(st, ls))[i].sent
    decreases |ls|
  {
    if ls != [] && |ls[0]| <= LIMIT {
      var next := TakeLine(st, ls[0]);
      if i < |next.mails| {
        SavedStay(next, ls[1..]);
        assert Finish(TakeLines(next, ls[1..]))[i] == next.mails[i];
      } else {
        ContentsTerminated(next, ls[1..], i);
      }
    }
  }

  // ---- One mail of a queue ----

  predicate RecipientOk(r: string, eol: string) {
    Address(r) && |HeaderLine(TO, r, eol)| <= LIMIT && !Marked(r, FROM)
  }

  /** Where reading stands before a mail, if all mails before it were good */
  predicate Steady(st: Scan, eol: string) {
    Ready(st) && RecipientOk(st.recipient, eol) && Terminated(st.content, NEWLINE)
  }

  predicate StartsMail(ls: seq<string>) {
    ls == [] || Marked(CText(ls[0]), FROM)
  }

  /** The mail read at this place of the queue is m. */
  ghost predicate Reads(st: Scan, ls: seq<string>, m: Mail) {
    |Finish(TakeLines(st, ls))| > |Finish(st)| && Finish(TakeLines(st, ls))[|Finish(st)|] == m
  }

  /** The first line is read and gives the sender; the rest up to q is this mail. */
  lemma FirstLineRead(st: Scan, m: Mail, eol: string, ls: seq<string>) returns (st1: Scan, q: nat, fin: Scan)
    requires ls != [] && FROM <= CText(ls[0]) && (forall l :: l in ls ==> NEWLINE !in l) && Reads(st, ls, m)
    ensures |ls[0]| <= LIMIT
    ensures st1 == Scan(Finish(st), true, m.sender, st.recipient, if st.inEmail then "" else st.content)
    ensures Address(m.sender) && q <= |ls[1..]| && fin == TakeLines(st1, ls[1..][..q]) && |Finish(fin)| == |Finish(st1)|
    ensures m == Mail(fin.sender, fin.recipient, fin.content, false)
    ensures q < |ls[1..]| ==> |ls[1..][q]| > LIMIT || Marked(CText(ls[1..][q]), FROM)
    ensures forall i :: 0 <= i < q ==> |ls[1..][i]| <= LIMIT && !Marked(CText(ls[1..][i]), FROM)
    ensures NEWLINE !in st.recipient ==> NEWLINE !in m.recipient
  {
    assert |ls[0]| <= LIMIT;
    assert ls[0] in ls;
    FieldIsAddress(CText(ls[0]), FROM);
    st1 := TakeLine(st, ls[0]);
    q, fin := FirstStop(st1, ls[1..]);
    TakeOthers(st1, ls[1..][..q]);
  }

  lemma QueueLines(m: Mail, eol: string, more: seq<string>)
    requires NEWLINE !in m.sender && NEWLINE !in m.recipient && IsEol(eol)
    ensures Lines(MailText(m, eol)) + more
         == [HeaderLine(FROM, m.sender, eol)] + AfterSender(m, eol, more)
  {
    LinesFrom(m, eol);
    LinesTo(m, eol);
  }

  function AfterSender(m: Mail, eol: string, more: seq<string>): seq<string> {
    [HeaderLine(TO, m.recipient, eol)] + (Lines(m.content) + more)
  }

  lemma TextStarts(m: Mail, eol: string, more: seq<string>)
    ensures
      var ls := Lines(MailText(m, eol)) + more;
      ls != [] && FROM <= CText(ls[0])
  {
    var text := MailText(m, eol);
    assert text[..|FROM|] == FROM;
    FirstLineMarked(text, FROM);
  }

  /** This mail is what reads up to the first stop; its sender line is whole. */
  ghost predicate ReadsUpTo(st1: Scan, rest: seq<string>, m: Mail, q: nat, fin: Scan) {
    && q <= |rest| && fin == TakeLines(st1, rest[..q]) && |Finish(fin)| == |Finish(st1)|
    && m == Mail(fin.sender, fin.recipient, fin.content, false)
    && (q < |rest| ==> |rest[q]| > LIMIT || Marked(CText(rest[q]), FROM))
    && (forall i :: 0 <= i < q ==> |rest[i]| <= LIMIT && !Marked(CText(rest[i]), FROM))
  }

  function AfterFrom(st: Scan, sender: string): Scan {
    Scan(Finish(st), true, sender, st.recipient, if st.inEmail then "" else st.content)
  }

  lemma HeaderRead(st: Scan, m: Mail, eol: string, more: seq<string>) returns (q: nat, fin: Scan)
    requires IsEol(eol) && (forall l :: l in more ==> NEWLINE !in l) && NEWLINE !in st.recipient
    requires Reads(st, Lines(MailText(m, eol)) + more, m)
    ensures Address(m.sender) && |HeaderLine(FROM, m.sender, eol)| <= LIMIT && NEWLINE !in m.recipient
    ensures ReadsUpTo(AfterFrom(st, m.sender), AfterSender(m, eol, more), m, q, fin)
  {
    var ls := Lines(MailText(m, eol)) + more;
    TextStarts(m, eol, more);
    var st1: Scan;
    st1, q, fin := FirstLineRead(st, m, eol, ls);
    QueueLines(m, eol, more);
    var from, rest := HeaderLine(FROM, m.sender, eol), AfterSender(m, eol, more);
    assert ([from] + rest)[0] == from && ([from] + rest)[1..] == rest;
  }

  // ---- The recipient and the content ----

  /** The recipient line is no stop: a recipient left over from a good mail would
      have to equal it, and would be good. */
  lemma RecipientRead(st1: Scan, m: Mail, eol: string, more: seq<string>, q: nat, fin: Scan)
    requires IsEol(eol) && RecipientOk(st1.recipient, eol)
    requires ReadsUpTo(st1, AfterSender(m, eol, more), m, q, fin)
    ensures q >= 1
  {
    var rest := AfterSender(m, eol, more);
    if q == 0 {
      assert rest[..0] == [];
      assert m.recipient == st1.recipient;
      HeaderField(TO, m.recipient, eol);
      ToLineMarked(m.recipient, eol);
    }
  }

  lemma {:induction false} SizeConcat(a: seq<string>, b: seq<string>)
    ensures Size(a + b) == Size(a) + Size(b)
    decreases |a|
  {
    if a == [] {
      assert a + b == b;
    } else {
      assert (a + b)[1..] == a[1..] + b;
      SizeConcat(a[1..], b);
    }
  }

  lemma SizeGrows(a: seq<string>, b: seq<string>)
    requires b != []
    ensures Size(a + b) > Size(a)
  {
    SizeConcat(a, b);
  }

  lemma PrefixThenRest(body: seq<string>, more: seq<string>, q: nat)
    requires q <= |body|
    ensures (body + more)[..q] == body[..q] && body[..q] + body[q..] == body
  {
  }

  /** A prefix of lines as large as all of them is all of them. */
  lemma PrefixOfSize(body: seq<string>, more: seq<string>, q: nat)
    requires q <= |body| && Size((body + more)[..q]) >= Size(body)
    ensures (body + more)[..q] == body
  {
    PrefixThenRest(body, more, q);
    if q < |body| {
      SizeGrows(body[..q], body[q..]);
    }
  }

  /** All lines of the content are taken, and no more. */
  lemma ContentRead(m: Mail, next: Scan, body: seq<string>, more: seq<string>, q: nat, fin: Scan)
    requires next.inEmail && next.content == "" && body == Lines(m.content) && Terminated(m.content, NEWLINE)
    requires StartsMail(more) && q <= |body + more| && fin == TakeLines(next, (body + more)[..q])
    requires |Finish(fin)| == |Finish(next)| && fin.content == m.content && fin.recipient == m.recipient
    requires forall i :: 0 <= i < q ==> !Marked(CText((body + more)[i]), FROM)
    ensures m.recipient == next.recipient && forall l :: l in body ==> Plain(l)
  {
    TakeOthers(next, (body + more)[..q]);
    SizeOfLines(m.content);
    if more != [] {
      assert (body + more)[|body|] == more[0];
    }
    PrefixOfSize(body, more, q);
  }

  lemma ToLineTaken(st1: Scan, to: string, tail: seq<string>, q: nat) returns (next: Scan)
    requires 1 <= q <= |tail| + 1 && |to| <= LIMIT && !Marked(CText(to), FROM) && Marked(CText(to), TO) && st1.inEmail
    ensures next == st1.(recipient := Field(CText(to), TO))
    ensures TakeLines(st1, ([to] + tail)[..q]) == TakeLines(next, tail[..q - 1])
  {
    next := TakeLine(st1, to);
    assert ([to] + tail)[..q] == [to] + tail[..q - 1];
    assert ([to] + tail[..q - 1])[1..] == tail[..q - 1];
  }

  /** The recipient line is read, and taken for one. */
  lemma ToRead(st1: Scan, m: Mail, eol: string, more: seq<string>, q: nat, fin: Scan) returns (next: Scan)
    requires IsEol(eol) && RecipientOk(st1.recipient, eol) && st1.inEmail && NEWLINE !in m.recipient
    requires ReadsUpTo(st1, AfterSender(m, eol, more), m, q, fin)
    ensures |HeaderLine(TO, m.recipient, eol)| <= LIMIT && !Marked(CText(HeaderLine(TO, m.recipient, eol)), FROM)
    ensures q >= 1 && Address(next.recipient) && next == st1.(recipient := next.recipient)
    ensures q - 1 <= |Lines(m.content) + more| && fin == TakeLines(next, (Lines(m.content) + more)[..q - 1])
    ensures forall i :: 0 <= i < q - 1 ==> !Marked(CText((Lines(m.content) + more)[i]), FROM)
  {
    var to, tail := HeaderLine(TO, m.recipient, eol), Lines(m.content) + more;
    RecipientRead(st1, m, eol, more, q, fin);
    UnmarkedLines(st1, to, tail, m, q, fin);
    ToCText(m.recipient, eol);
    FieldIsAddress(CText(to), TO);
    next := ToLineTaken(st1, to, tail, q);
  }

  /** The rest of a mail after its sender line */
  lemma RestGood(st1: Scan, m: Mail, eol: string, more: seq<string>, q: nat, fin: Scan)
    requires IsEol(eol) && RecipientOk(st1.recipient, eol) && st1.inEmail && st1.content == ""
    requires Terminated(m.content, NEWLINE) && StartsMail(more) && NEWLINE !in m.recipient
    requires ReadsUpTo(st1, AfterSender(m, eol, more), m, q, fin)
    ensures RecipientOk(m.recipient, eol) && forall l :: l in Lines(m.content) ==> Plain(l)
  {
    var next := ToRead(st1, m, eol, more, q, fin);
    ContentRead(m, next, Lines(m.content), more, q - 1, fin);
    RecipientUnmarked(m.recipient, eol);
  }

  lemma UnmarkedLines(st1: Scan, to: string, tail: seq<string>, m: Mail, q: nat, fin: Scan)
    requires ReadsUpTo(st1, [to] + tail, m, q, fin) && q >= 1
    ensures |to| <= LIMIT && !Marked(CText(to), FROM)
    ensures forall i :: 0 <= i < q - 1 ==> !Marked(CText(tail[i]), FROM)
  {
    assert ([to] + tail)[0] == to;
    forall i | 0 <= i < q - 1
      ensures !Marked(CText(tail[i]), FROM)
    {
      assert tail[i] == ([to] + tail)[i + 1];
    }
  }

  lemma RecipientUnmarked(r: string, eol: string)
    requires IsEol(eol) && Address(r) && !Marked(CText(HeaderLine(TO, r, eol)), FROM)
    ensures !Marked(r, FROM)
  {
    HeaderField(TO, r, eol);
    ToLineMarked(r, eol);
  }

  /** A mail that is read back at its place of a queue was good. */
  lemma ReadGood(st: Scan, m: Mail, eol: string, more: seq<string>)
    requires IsEol(eol) && Steady(st, eol) && Terminated(m.content, NEWLINE)
    requires StartsMail(more) && forall l :: l in more ==> NEWLINE !in l
    requires Reads(st, Lines(MailText(m, eol)) + more, m)
    ensures Good(m, eol) && !m.sent
  {
    var q, fin := HeaderRead(st, m, eol, more);
    RestGood(AfterFrom(st, m.sender), m, eol, more, q, fin);
  }

  // ---- Whole queues ----

  function QueueText(ms: seq<Mail>, eol: string): string {
    if ms == [] then "" else MailText(ms[0], eol) + QueueText(ms[1..], eol)
  }

  predicate AllGood(ms: seq<Mail>, eol: string) {
    forall i :: 0 <= i < |ms| ==> Good(ms[i], eol) && !ms[i].sent
  }

  lemma QueueStarts(ms: seq<Mail>, eol: string)
    ensures StartsMail(Lines(QueueText(ms, eol)))
  {
    if ms != [] {
      var text := QueueText(ms, eol);
      assert text[..|FROM|] == FROM;
      FirstLineMarked(text, FROM);
      var line := CText(Lines(text)[0]);
      FieldIsAddress(line, FROM);
    }
  }

  lemma TextLines(m: Mail, eol: string, rest: string)
    requires Terminated(m.content, NEWLINE)
    ensures Lines(MailText(m, eol) + rest) == Lines(MailText(m, eol)) + Lines(rest)
  {
    var head := HeaderLine(FROM, m.sender, eol) + [NEWLINE] + HeaderLine(TO, m.recipient, eol);
    assert MailText(m, eol) == head + [NEWLINE] + m.content;
    TextTerminated(head, m.content);
    PiecesAppend(MailText(m, eol), rest, NEWLINE);
  }

  lemma TextFits(m: Mail, eol: string)
    requires Good(m, eol) && IsEol(eol)
    ensures Fitting(Lines(MailText(m, eol)))
  {
    MailLines(m, eol);
  }

  /** Reading a queue from a steady place gives back its mails exactly when all of
      them are good. */
  lemma {:induction false} QueueFrom(st: Scan, ms: seq<Mail>, eol: string)
    requires IsEol(eol) && Steady(st, eol)
    ensures Finish(TakeLines(st, Lines(QueueText(ms, eol)))) == Finish(st) + ms <==> AllGood(ms, eol)
    decreases |ms|
  {
    if ms != [] {
      var m := ms[0];
      assert ms == [m] + ms[1..];
      if Good(m, eol) && !m.sent {
        FirstGood(st, m, ms[1..], eol);
        QueueFrom(AfterMail(st, m), ms[1..], eol);
        FirstCounted(st, m, ms[1..], eol);
      } else if Finish(TakeLines(st, Lines(QueueText(ms, eol)))) == Finish(st) + ms {
        FirstReads(st, m, ms[1..], eol);
      }
    }
  }

  function AfterMail(st: Scan, m: Mail): Scan {
    Scan(Finish(st), true, m.sender, m.recipient, m.content)
  }

  lemma FirstCounted(st: Scan, m: Mail, ms: seq<Mail>, eol: string)
    requires Good(m, eol) && !m.sent
    ensures Finish(AfterMail(st, m)) + ms == Finish(st) + ([m] + ms)
    ensures AllGood([m] + ms, eol) <==> AllGood(ms, eol)
  {
    assert forall i :: 0 <= i < |ms| ==> ([m] + ms)[i + 1] == ms[i];
  }

  lemma FirstGood(st: Scan, m: Mail, ms: seq<Mail>, eol: string)
    requires IsEol(eol) && Steady(st, eol) && Good(m, eol)
    ensures
      var st' := AfterMail(st, m);
      && Steady(st', eol)
      && TakeLines(st, Lines(MailText(m, eol) + QueueText(ms, eol))) == TakeLines(st', Lines(QueueText(ms, eol)))
  {
    TextLines(m, eol, QueueText(ms, eol));
    TextFits(m, eol);
    TakeLinesAppend(st, Lines(MailText(m, eol)), Lines(QueueText(ms, eol)));
    TakeMail(st, m, eol);
  }

  lemma FirstReads(st: Scan, m: Mail, ms: seq<Mail>, eol: string)
    requires IsEol(eol) && Steady(st, eol)
    requires Finish(TakeLines(st, Lines(MailText(m, eol) + QueueText(ms, eol)))) == Finish(st) + ([m] + ms)
    ensures Good(m, eol) && !m.sent
  {
    var ls := Lines(MailText(m, eol) + QueueText(ms, eol));
    assert Finish(TakeLines(st, ls))[|Finish(st)|] == m;
    ContentsTerminated(st, ls, |Finish(st)|);
    TextLines(m, eol, QueueText(ms, eol));
    QueueStarts(ms, eol);
    ReadGood(st, m, eol, Lines(QueueText(ms, eol)));
  }

  /** A queue reads back as its mails exactly when all of them are good. */
  lemma QueueSurvives(ms: seq<Mail>, eol: string)
    requires IsEol(eol)
    ensures Parse(QueueText(ms, eol)) == ms <==> AllGood(ms, eol)
  {
    QueueFrom(Start([]), ms, eol);
    assert Finish(Start([])) + ms == ms;
  }

  /** A mail written alone reads back as itself exactly when it is good. */
  lemma OneMailSurvives(m: Mail, eol: string)
    requires IsEol(eol)
    ensures Parse(MailText(m, eol)) == [m] <==> Good(m, eol) && !m.sent
  {
    assert QueueText([m], eol) == MailText(m, eol) + "" == MailText(m, eol);
    QueueSurvives([m], eol);
  }

  // ---- How long a line may be ----

  /** A mail in the file is its two addresses and its content, in these words. */
  lemma TextIs(m: Mail, eol: string)
    ensures MailText(m, eol) ==
      ("From <" + m.sender + ">" + eol) + "\n" + ("To <" + m.recipient + ">" + eol + "\n" + m.content)
  {
    assert HeaderLine(FROM, m.sender, eol) == "From <" + m.sender + ">" + eol;
    assert HeaderLine(TO, m.recipient, eol) == "To <" + m.recipient + ">" + eol;
  }

  /** The mail with one more line */
  function WithLine(m: Mail, line: string): Mail {
    m.(content := AppendLine(m.content, line))
  }

  lemma GoodWithLine(m: Mail, eol: string, line: string)
    requires IsEol(eol) && Good(m, eol) && |line| <= 4095
    requires NEWLINE !in line && NUL !in line && !Marked(line, "From <") && !Marked(line, "To <")
    ensures Good(WithLine(m, line), eol)
    ensures MailText(WithLine(m, line), eol) == AppendLine(MailText(m, eol), line)
  {
    LinesAppend(m.content, line);
    AppendToText(HeaderLine(FROM, m.sender, eol) + [NEWLINE], HeaderLine(TO, m.recipient, eol) + [NEWLINE], m.content,
        line);
  }

  lemma AppendToText(from: string, to: string, content: string, line: string)
    ensures from + (to + AppendLine(content, line)) == AppendLine(from + (to + content), line)
  {
  }

  /** A line of up to 4095 characters belongs to its mail. */
  lemma LineFits(file: string, m: Mail, eol: string, line: string)
    requires Readable(file) && IsEol(eol) && Good(m, eol) && |line| <= 4095
    requires NEWLINE !in line && NUL !in line && !Marked(line, "From <") && !Marked(line, "To <")
    ensures Parse(file + AppendLine(MailText(m, eol), line)) == Parse(file) + [WithLine(m, line).(sent := false)]
  {
    GoodWithLine(m, eol, line);
    ParseAppend(file, WithLine(m, line), eol);
  }

  /** At a longer one reading ends: the mails up to there are read, without that line,
      and nothing of what follows is. */
  lemma LongLineStops(file: string, m: Mail, eol: string, line: string, more: string)
    requires Readable(file) && IsEol(eol) && Good(m, eol) && |line| > 4095 && NEWLINE !in line
    ensures Parse(file + MailText(m, eol) + (line + [NEWLINE] + more)) == Parse(file) + [m.(sent := false)]
  {
    var before := file + MailText(m, eol);
    ParseAppend(file, m, eol);
    ParseConcat(before, line + [NEWLINE] + more);
    PiecesCons(line, NEWLINE, more);
    StopsAtFirst(TakeLines(Start([]), Lines(before)), line, Lines(more));
  }

  lemma StopsAtFirst(st: Scan, line: string, rest: seq<string>)
    requires |line| > 4095
    ensures TakeLines(st, [line] + rest) == st
  {
  }

  // ---- Lines that are not as the writer makes them ----

  /** The address in a line with the marker behind other text: up to the first closing
      bracket behind it, unless there is one before it or none at all; then the whole
      rest of the line. */
  lemma FieldIs(before: string, marker: string, rest: string)
    requires Find(before + marker + rest, marker, 0) == |before| && CLOSE !in marker
    ensures Field(before + marker + rest, marker) ==
            if CLOSE in before || CLOSE !in rest then rest else rest[..Until(rest, CLOSE)]
  {
    var head := before + marker;
    var end := WhereClosed(before, marker, rest);
    FieldAt(head + rest, marker, |head|, end);
    SliceBehind(head, rest, Until(rest, CLOSE));
  }

  lemma FieldAt(line: string, marker: string, start: nat, end: int)
    requires Find(line, marker, 0) == start - |marker| && start >= |marker| && IndexOf(line, CLOSE) == end
    ensures Field(line, marker) == if end == -1 || end < start then line[start..] else line[start..end]
  {
  }

  /** Where the first closing bracket of the line is */
  lemma WhereClosed(before: string, marker: string, rest: string) returns (end: int)
    requires CLOSE !in marker
    ensures end == IndexOf(before + marker + rest, CLOSE)
    ensures if CLOSE in before then 0 <= end < |before|
            else if CLOSE in rest then end == |before + marker| + Until(rest, CLOSE)
            else end == -1
  {
    end := IndexOf(before + marker + rest, CLOSE);
    if CLOSE in before {
      Regroup(before, marker, rest);
      BracketBefore(before, marker + rest);
    } else if CLOSE in rest {
      BracketBehind(before + marker, rest);
    } else {
      IndexNone(before + marker + rest, CLOSE);
    }
  }

  lemma BracketBefore(before: string, more: string)
    requires CLOSE in before
    ensures 0 <= IndexOf(before + more, CLOSE) < |before|
  {
    var k :| 0 <= k < |before| && before[k] == CLOSE;
    assert (before + more)[k] == CLOSE;
  }

  lemma BracketBehind(head: string, rest: string)
    requires CLOSE !in head && CLOSE in rest
    ensures IndexOf(head + rest, CLOSE) == |head| + Until(rest, CLOSE) < |head| + |rest|
  {
    var line, n := head + rest, Until(rest, CLOSE);
    var k :| 0 <= k < |rest| && rest[k] == CLOSE;
    assert n <= k;
    forall h | 0 <= h < |head| + n
      ensures line[h] != CLOSE
    {
      assert line[h] == if h < |head| then head[h] else rest[h - |head|];
    }
    UntilIs(line, CLOSE, |head| + n);
  }

  lemma SliceBehind(head: string, rest: string, n: nat)
    requires n <= |rest|
    ensures (head + rest)[|head|..|head| + n] == rest[..n] && (head + rest)[|head|..] == rest
  {
  }

  /** Lines before the first mail are passed over, whatever recipients they name. */
  lemma {:induction false} NoMailBefore(st: Scan, ls: seq<string>)
    requires !st.inEmail && forall l :: l in ls ==> !Marked(CText(l), "From <")
    ensures TakeLines(st, ls).mails == st.mails && !TakeLines(st, ls).inEmail
    decreases |ls|
  {
    if ls != [] && |ls[0]| <= LIMIT {
      assert ls[0] in ls;
      NoMailBefore(TakeLine(st, ls[0]), ls[1..]);
    }
  }

  lemma NoMailIn(file: string)
    requires forall l :: l in Lines(file) ==> !Marked(CText(l), "From <")
    ensures Parse(file) == []
  {
    NoMailBefore(Start([]), Lines(file));
  }
}

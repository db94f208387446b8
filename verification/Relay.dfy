/** Passes of the relay over its queue (smtp/smtpec.cc) and the conservation of mail
    over any number of them. */
module Relay {
  import opened Text
  import opened MailQueue
  import opened QueueLaws

  // ---- One pass ----

  /** answers[i] holds what the attempts for mail i would return, one for each of its
      mail servers; a domain without servers has none. */
  type Answers = seq<seq<bool>>

  predicate Taken(answers: Answers, i: nat) {
    i < |answers| && true in answers[i]
  }

  function Mark(m: Mail, taken: bool): Mail {
    if taken then m.(sent := true) else m
  }

  /** The mails after the delivery loop */
  function Marks(mails: seq<Mail>, answers: Answers): (r: seq<Mail>)
    ensures |r| == |mails|
  {
    seq(|mails|, i requires 0 <= i < |mails| => Mark(mails[i], Taken(answers, i)))
  }

  /** The entries at the positions that were, or were not, taken */
  function Chosen<T>(xs: seq<T>, answers: Answers, taken: bool): seq<T> {
    if xs == [] then []
    else
      var n := |xs| - 1;
      Chosen(xs[..n], answers, taken) + if Taken(answers, n) == taken then [xs[n]] else []
  }

  /** The queue file, and the mails handed to some server so far */
  datatype World = World(file: string, delivered: seq<Mail>)

  function Pass(w: World, answers: Answers): World {
    var mails := Parse(w.file);
    World(if mails == [] then w.file else Print(Marks(mails, answers)),
          w.delivered + Chosen(mails, answers, true))
  }

  // ---- The program ----

  class Sender {
    var emails: seq<Mail>

    constructor ()
      ensures emails == []
    {
      emails := [];
    }

    method BuildEmailInfo(file: string)
      modifies this
      ensures emails == Finish(TakeLines(Start(old(emails)), Lines(file)))
    {
      ghost var all := TakeLines(Start(emails), Lines(file));
      var lines := Lines(file);
      var content, inEmail, senderEmail, recipient := "", false, "", "";
      var i := 0;
      while i < |lines| && |lines[i]| <= LIMIT
        invariant 0 <= i <= |lines|
        invariant TakeLines(Scan(emails, inEmail, senderEmail, recipient, content), lines[i..]) == all
      {
        var line := CText(lines[i]);
        assert lines[i..][1..] == lines[i + 1..];
        if Marked(line, FROM) {
          if inEmail {
            emails := emails + [Mail(senderEmail, recipient, content, false)];
            content := "";
          }
          inEmail := true;
          senderEmail := Field(line, FROM);
        } else if Marked(line, TO) {
          recipient := Field(line, TO);
        } else if inEmail {
          content := content + line + [NEWLINE];
        }
        i := i + 1;
      }
      if inEmail {
        emails := emails + [Mail(senderEmail, recipient, content, false)];
      }
    }

    /** One mail is tried at its servers in turn until one accepts it. */
    static method TryServers(answers: seq<bool>) returns (sent: bool)
      ensures sent == (true in answers)
    {
      sent := false;
      for i := 0 to |answers|
        invariant sent == false && true !in answers[..i]
      {
        if answers[i] {
          sent := true;
          return;
        }
      }
      assert answers[..|answers|] == answers;
    }

    method Deliver(answers: Answers) returns (handed: seq<Mail>)
      modifies this
      ensures emails == Marks(old(emails), answers)
      ensures handed == Chosen(old(emails), answers, true)
    {
      ghost var was := emails;
      handed := [];
      for i := 0 to |emails|
        invariant |emails| == |was|
        invariant forall k :: 0 <= k < i ==> emails[k] == Mark(was[k], Taken(answers, k))
        invariant forall k :: i <= k < |was| ==> emails[k] == was[k]
        invariant handed == Chosen(was[..i], answers, true)
      {
        assert was[..i + 1][..i] == was[..i];
        var servers := if i < |answers| then answers[i] else [];
        var sent := TryServers(servers);
        if sent {
          handed := handed + [emails[i]];
          emails := emails[i := emails[i].(sent := true)];
        }
      }
      assert was[..|was|] == was;
    }

    method Rewrite() returns (file: string)
      ensures file == Print(emails)
    {
      file := "";
      for i := 0 to |emails|
        invariant file == Print(emails[..i])
      {
        assert emails[..i + 1][..i] == emails[..i];
        if !emails[i].sent {
          file := file + MailText(emails[i], "\r");
        }
      }
      assert emails[..|emails|] == emails;
    }

    /** The program run once on the queue file */
    method Run(file: string, answers: Answers) returns (after: string, handed: seq<Mail>)
      requires emails == []
      modifies this
      ensures forall d: seq<Mail> {:trigger World(file, d)} :: Pass(World(file, d), answers) == World(after, d + handed)
    {
      after, handed := file, [];
      BuildEmailInfo(file);
      if |emails| > 0 {
        handed := Deliver(answers);
        after := Rewrite();
      }
    }
  }

  // ---- Conservation ----

  datatype Event = Arrive(mail: Mail) | Attempt(answers: Answers)

  function After(w: World, e: Event): World {
    match e
    case Arrive(m) => w.(file := w.file + MailText(m, ""))
    case Attempt(answers) => Pass(w, answers)
  }

  function RunAll(events: seq<Event>): World {
    if events == [] then World("", []) else After(RunAll(events[..|events| - 1]), events[|events| - 1])
  }

  /** The books of an ideal queue: the arrivals in order, and the positions of those
      still waiting and those delivered. */
  datatype Books = Books(arrived: seq<Mail>, waiting: seq<nat>, gone: seq<nat>)

  function Book(b: Books, e: Event): Books {
    match e
    case Arrive(m) => Books(b.arrived + [m], b.waiting + [|b.arrived|], b.gone)
    case Attempt(answers) =>
      Books(b.arrived, Chosen(b.waiting, answers, false), b.gone + Chosen(b.waiting, answers, true))
  }

  function BookAll(events: seq<Event>): Books {
    if events == [] then Books([], [], []) else Book(BookAll(events[..|events| - 1]), events[|events| - 1])
  }

  predicate Increasing(xs: seq<nat>) {
    forall i, j :: 0 <= i < j < |xs| ==> xs[i] < xs[j]
  }

  predicate Below(xs: seq<nat>, n: nat) {
    forall i :: 0 <= i < |xs| ==> xs[i] < n
  }

  /** Each of the positions below n occurs in exactly one of the two lists, once. */
  ghost predicate SplitInTwo(n: nat, waiting: multiset<nat>, gone: multiset<nat>) {
    forall k: nat :: (waiting + gone)[k] == if k < n then 1 else 0
  }

  /** Every arrival is waiting or gone, once, and the waiting ones are in order. */
  ghost predicate Balanced(b: Books) {
    && SplitInTwo(|b.arrived|, multiset(b.waiting), multiset(b.gone))
    && Increasing(b.waiting) && Below(b.waiting, |b.arrived|) && Below(b.gone, |b.arrived|)
  }

  lemma {:induction false} ChosenSplits<T>(xs: seq<T>, answers: Answers)
    ensures multiset(Chosen(xs, answers, true)) + multiset(Chosen(xs, answers, false)) == multiset(xs)
  {
    if xs != [] {
      var n := |xs| - 1;
      ChosenSplits(xs[..n], answers);
      assert xs == xs[..n] + [xs[n]];
    }
  }

  lemma {:induction false} ChosenFrom<T>(xs: seq<T>, answers: Answers, taken: bool)
    ensures forall x :: x in Chosen(xs, answers, taken) ==> x in xs
  {
    if xs != [] {
      ChosenFrom(xs[..|xs| - 1], answers, taken);
    }
  }

  lemma {:induction false} ChosenIncreasing(xs: seq<nat>, answers: Answers, taken: bool)
    requires Increasing(xs)
    ensures Increasing(Chosen(xs, answers, taken))
  {
    if xs != [] {
      var n := |xs| - 1;
      ChosenIncreasing(xs[..n], answers, taken);
      ChosenFrom(xs[..n], answers, taken);
      var ys := Chosen(xs[..n], answers, taken);
      forall i | 0 <= i < |ys|
        ensures ys[i] < xs[n]
      {
        assert ys[i] in xs[..n];
      }
    }
  }

  lemma SplitGrows(n: nat, waiting: seq<nat>, gone: multiset<nat>)
    requires SplitInTwo(n, multiset(waiting), gone)
    ensures SplitInTwo(n + 1, multiset(waiting + [n]), gone)
  {
    assert multiset(waiting + [n]) == multiset(waiting) + multiset{n};
    forall k: nat
      ensures (multiset(waiting + [n]) + gone)[k] == if k < n + 1 then 1 else 0
    {
      assert (multiset(waiting) + gone)[k] == if k < n then 1 else 0;
    }
  }

  lemma ArriveBalanced(b: Books, m: Mail)
    requires Balanced(b)
    ensures Balanced(Book(b, Arrive(m)))
  {
    SplitGrows(|b.arrived|, b.waiting, multiset(b.gone));
  }

  lemma ChosenBelow(xs: seq<nat>, answers: Answers, taken: bool, n: nat)
    requires Below(xs, n)
    ensures Below(Chosen(xs, answers, taken), n)
  {
    ChosenFrom(xs, answers, taken);
    var ys := Chosen(xs, answers, taken);
    forall i | 0 <= i < |ys|
      ensures ys[i] < n
    {
      assert ys[i] in xs;
    }
  }

  lemma SplitMoves(n: nat, waiting: seq<nat>, gone: seq<nat>, answers: Answers)
    requires SplitInTwo(n, multiset(waiting), multiset(gone))
    ensures SplitInTwo(n, multiset(Chosen(waiting, answers, false)), multiset(gone + Chosen(waiting, answers, true)))
  {
    ChosenSplits(waiting, answers);
    var sent, left := Chosen(waiting, answers, true), Chosen(waiting, answers, false);
    assert multiset(gone + sent) == multiset(gone) + multiset(sent);
    assert multiset(left) + multiset(gone + sent) == multiset(waiting) + multiset(gone);
  }

  lemma AttemptBalanced(b: Books, answers: Answers)
    requires Balanced(b)
    ensures Balanced(Book(b, Attempt(answers)))
  {
    SplitMoves(|b.arrived|, b.waiting, b.gone, answers);
    ChosenBelow(b.waiting, answers, true, |b.arrived|);
    ChosenBelow(b.waiting, answers, false, |b.arrived|);
    ChosenIncreasing(b.waiting, answers, false);
  }

  /** The arrivals at the given positions */
  function Picked(arrived: seq<Mail>, at: seq<nat>): seq<Mail>
    requires Below(at, |arrived|)
  {
    seq(|at|, k requires 0 <= k < |at| => arrived[at[k]])
  }

  lemma PickedAppend(arrived: seq<Mail>, a: seq<nat>, b: seq<nat>)
    requires Below(a, |arrived|) && Below(b, |arrived|)
    ensures Below(a + b, |arrived|)
    ensures Picked(arrived, a + b) == Picked(arrived, a) + Picked(arrived, b)
  {
  }

  lemma PickedGrow(arrived: seq<Mail>, m: Mail, at: seq<nat>)
    requires Below(at, |arrived|)
    ensures Below(at, |arrived + [m]|) && Picked(arrived + [m], at) == Picked(arrived, at)
  {
  }

  lemma {:induction false} PickedChosen(arrived: seq<Mail>, at: seq<nat>, answers: Answers, taken: bool)
    requires Below(at, |arrived|)
    ensures Below(Chosen(at, answers, taken), |arrived|)
    ensures Picked(arrived, Chosen(at, answers, taken)) == Chosen(Picked(arrived, at), answers, taken)
  {
    ChosenBelow(at, answers, taken, |arrived|);
    if at != [] {
      var n := |at| - 1;
      var last: seq<nat> := if Taken(answers, n) == taken then [at[n]] else [];
      PickedChosen(arrived, at[..n], answers, taken);
      assert Picked(arrived, at)[..n] == Picked(arrived, at[..n]);
      PickedAppend(arrived, Chosen(at[..n], answers, taken), last);
    }
  }

  predicate Sound(m: Mail) {
    Good(m, "\r") && !m.sent
  }

  predicate AllSound(ms: seq<Mail>) {
    forall i :: 0 <= i < |ms| ==> Sound(ms[i])
  }

  lemma GoodForServer(m: Mail)
    requires Sound(m)
    ensures Good(m, "")
  {
    assert |HeaderLine(FROM, m.sender, "\r")| == |HeaderLine(FROM, m.sender, "")| + 1;
    assert |HeaderLine(TO, m.recipient, "\r")| == |HeaderLine(TO, m.recipient, "")| + 1;
  }

  lemma PrintOne(before: string, m: Mail, taken: bool)
    requires Readable(before) && Sound(m)
    ensures var file := before + if Mark(m, taken).sent then "" else MailText(Mark(m, taken), "\r");
            Readable(file) && Parse(file) == Parse(before) + if taken then [] else [m]
  {
    if taken {
      assert before + "" == before;
    } else {
      ParseAppend(before, m, "\r");
    }
  }

  /** Reading the rewritten queue gives the mails that were not taken, in order. */
  lemma {:induction false} RewriteKeeps(ms: seq<Mail>, answers: Answers)
    requires AllSound(ms)
    ensures Parse(Print(Marks(ms, answers))) == Chosen(ms, answers, false)
    ensures Readable(Print(Marks(ms, answers)))
  {
    if ms != [] {
      var n := |ms| - 1;
      RewriteKeeps(ms[..n], answers);
      assert Marks(ms, answers)[..n] == Marks(ms[..n], answers);
      PrintOne(Print(Marks(ms[..n], answers)), ms[n], Taken(answers, n));
    }
  }

  lemma QueueSnoc(ms: seq<Mail>, m: Mail, eol: string)
    ensures QueueText(ms + [m], eol) == QueueText(ms, eol) + MailText(m, eol)
    decreases |ms|
  {
    if ms == [] {
      assert [] + [m] == [m];
      assert QueueText([m], eol) == MailText(m, eol) + "" == "" + MailText(m, eol);
    } else {
      assert (ms + [m])[1..] == ms[1..] + [m];
      QueueSnoc(ms[1..], m, eol);
      Regroup(MailText(ms[0], eol), QueueText(ms[1..], eol), MailText(m, eol));
    }
  }

  /** The rewritten file is the queue of the mails that were not taken. */
  lemma {:induction false} PrintsUntaken(ms: seq<Mail>, answers: Answers)
    requires forall i :: 0 <= i < |ms| ==> !ms[i].sent
    ensures Print(Marks(ms, answers)) == QueueText(Chosen(ms, answers, false), "\r")
  {
    if ms != [] {
      var n := |ms| - 1;
      PrintsUntaken(ms[..n], answers);
      assert Marks(ms, answers)[..n] == Marks(ms[..n], answers);
      var before := QueueText(Chosen(ms[..n], answers, false), "\r");
      if Taken(answers, n) {
        assert before + "" == before;
        assert Chosen(ms[..n], answers, false) + [] == Chosen(ms[..n], answers, false);
      } else {
        QueueSnoc(Chosen(ms[..n], answers, false), ms[n], "\r");
      }
    }
  }

  /** A pass loses and changes nothing exactly when every mail that was not taken is
      sound: otherwise the next pass reads something else, and rewrites that. */
  lemma RewriteExact(ms: seq<Mail>, answers: Answers)
    requires forall i :: 0 <= i < |ms| ==> !ms[i].sent
    ensures Parse(Print(Marks(ms, answers))) == Chosen(ms, answers, false)
       <==> AllSound(Chosen(ms, answers, false))
  {
    PrintsUntaken(ms, answers);
    QueueSurvives(Chosen(ms, answers, false), "\r");
  }

  /** The real queue agrees with the books. */
  ghost predicate Agrees(w: World, b: Books) {
    && Balanced(b) && AllSound(b.arrived) && Readable(w.file)
    && Parse(w.file) == Picked(b.arrived, b.waiting)
    && w.delivered == Picked(b.arrived, b.gone)
  }

  lemma ArriveAgrees(w: World, b: Books, m: Mail)
    requires Agrees(w, b) && Sound(m)
    ensures Agrees(After(w, Arrive(m)), Book(b, Arrive(m)))
  {
    ArriveBalanced(b, m);
    GoodForServer(m);
    ParseAppend(w.file, m, "");
    var n := |b.arrived|;
    PickedGrow(b.arrived, m, b.waiting);
    PickedGrow(b.arrived, m, b.gone);
    PickedAppend(b.arrived + [m], b.waiting, [n]);
    assert Picked(b.arrived + [m], [n]) == [m];
  }

  lemma PassReads(file: string, delivered: seq<Mail>, answers: Answers)
    requires Readable(file) && AllSound(Parse(file))
    ensures var w := Pass(World(file, delivered), answers);
            && Readable(w.file) && Parse(w.file) == Chosen(Parse(file), answers, false)
            && w.delivered == delivered + Chosen(Parse(file), answers, true)
  {
    RewriteKeeps(Parse(file), answers);
  }

  lemma AttemptAgrees(w: World, b: Books, answers: Answers)
    requires Agrees(w, b)
    ensures Agrees(After(w, Attempt(answers)), Book(b, Attempt(answers)))
  {
    AttemptBalanced(b, answers);
    PickedChosen(b.arrived, b.waiting, answers, true);
    PickedChosen(b.arrived, b.waiting, answers, false);
    PassReads(w.file, w.delivered, answers);
    PickedAppend(b.arrived, b.gone, Chosen(b.waiting, answers, true));
  }

  /** Conservation: over any arrivals of sound mails and any passes with any
      outcomes, every mail that arrived is delivered once or still in the file, and
      the file holds the waiting ones in the order of arrival. */
  lemma {:induction false} Conservation(events: seq<Event>)
    requires forall e :: e in events && e.Arrive? ==> Sound(e.mail)
    ensures Agrees(RunAll(events), BookAll(events))
  {
    if events == [] {
      assert Parse("") == [];
    } else {
      var n := |events| - 1;
      Conservation(events[..n]);
      assert events[n] in events;
      match events[n]
      case Arrive(m) => ArriveAgrees(RunAll(events[..n]), BookAll(events[..n]), m);
      case Attempt(answers) => AttemptAgrees(RunAll(events[..n]), BookAll(events[..n]), answers);
    }
  }
}

/** Master and replicas of one group talking over one FIFO channel per replica:
    who believes to be what once the messages under way have arrived. */
module Roles {
  import opened Optional
  import opened Status
  import opened Election

  /** chan[i] holds the datagrams on their way to replica i, local[i] what it knows,
      up[i] whether its process exists. failedOver records whether a primary of the
      group has ever been declared dead. */
  datatype Proto = Proto(view: View, chan: seq<seq<string>>, local: seq<Local>, up: seq<bool>, failedOver: bool)

  datatype Move =
    | Hear(i: nat)    // the master takes a heartbeat of i
    | Expire(i: nat)  // the master declares i dead
    | Deliver(i: nat) // i takes its oldest message
    | Crash(i: nat)   // the process of i ends; what was under way to it is lost
    | Restart(i: nat) // a new process for i, once the master holds it dead

  function Texts(letters: seq<Letter>): (r: seq<string>)
    ensures |r| == |letters|
    ensures forall n :: 0 <= n < |letters| ==> r[n] == LetterText(letters[n])
  {
    seq(|letters|, n requires 0 <= n < |letters| => LetterText(letters[n]))
  }

  /** A change at the master: every process that is up gets its letters. */
  ghost predicate Posted(p: Proto, c: Change, p': Proto)
    requires c.i < |p.view.members| == |p.chan| == |p.up|
  {
    && p'.view == After(p.view, c)
    && p'.local == p.local && p'.up == p.up
    && |p'.chan| == |p.chan|
    && p'.failedOver == (p.failedOver || (c.Expired? && p.view.members[c.i].isPrimary))
    && forall j :: 0 <= j < |p.chan| ==>
         p'.chan[j] == p.chan[j] + if p.up[j] then Texts(MailTo(p.view, c, j)) else []
  }

  function MailTo(v: View, c: Change, j: nat): seq<Letter>
    requires c.i < |v.members| && j < |v.members|
  {
    if c.Heard? then BeatMail(v, c.i, j) else BuryMail(v, c.i, j)
  }

  /** A replica that has just been started: not primary, everybody held dead */
  predicate Unaware(l: Local) {
    && !l.me.isPrimary
    && forall j :: 0 <= j < |l.peers| ==> !l.peers[j].isPrimary && l.peers[j].isDead
  }

  predicate Shaped(p: Proto) {
    |p.view.members| == |p.chan| == |p.local| == |p.up|
  }

  ghost predicate Moved(p: Proto, m: Move, p': Proto)
    requires Shaped(p) && m.i < |p.up|
  {
    match m
    case Hear(i) => Posted(p, Heard(i), p')
    case Expire(i) => !p.view.members[i].isDead && Posted(p, Expired(i), p')
    case Deliver(i) =>
      && p.up[i] && p.chan[i] != []
      && p' == p.(chan := p.chan[i := p.chan[i][1..]], local := p.local[i := Receive(p.local[i], p.chan[i][0])])
    case Crash(i) =>
      p' == p.(up := p.up[i := false], chan := p.chan[i := []])
    case Restart(i) =>
      && !p.up[i] && p.view.members[i].isDead
      && |p'.local| == |p.local| && Unaware(p'.local[i]) && Named(p.view.members, p'.local[i], i)
      && p' == p.(up := p.up[i := true], chan := p.chan[i := []], local := p.local[i := p'.local[i]])
  }

  // ---- What a replica knows once its channel is empty ----

  function Drain(l: Local, msgs: seq<string>): Local {
    if msgs == [] then l else Receive(Drain(l, msgs[..|msgs| - 1]), msgs[|msgs| - 1])
  }

  /** Delivering the oldest message first is what draining does. */
  lemma {:induction false} DrainFirst(l: Local, msgs: seq<string>)
    requires msgs != []
    ensures Drain(l, msgs) == Drain(Receive(l, msgs[0]), msgs[1..])
  {
    if |msgs| == 1 {
      assert msgs[..0] == [] && msgs[1..] == [];
    } else {
      var n := |msgs| - 1;
      DrainFirst(l, msgs[..n]);
      assert msgs[..n][1..] == msgs[1..][..n - 1];
    }
  }

  lemma DrainSnoc(l: Local, msgs: seq<string>, text: string)
    ensures Drain(l, msgs + [text]) == Receive(Drain(l, msgs), text)
  {
    assert (msgs + [text])[..|msgs + [text]| - 1] == msgs;
  }

  /** l uses the names of the group ms, and its own is that of member i. */
  ghost predicate Named(ms: seq<ServerInfo>, l: Local, i: nat)
    requires i < |ms|
  {
    && l.me.addr == ms[i].addr && |l.peers| == |ms|
    && forall j :: 0 <= j < |ms| ==> l.peers[j].addr == ms[j].addr
  }

  lemma {:induction false} DrainNamed(ms: seq<ServerInfo>, l: Local, i: nat, msgs: seq<string>)
    requires i < |ms| && Named(ms, l, i)
    ensures Named(ms, Drain(l, msgs), i)
  {
    if msgs != [] {
      DrainNamed(ms, l, i, msgs[..|msgs| - 1]);
    }
  }

  function Eventually(p: Proto, i: nat): Local
    requires Shaped(p) && i < |p.up|
  {
    Drain(p.local[i], p.chan[i])
  }

  // ---- Agreement on roles ----

  /** l agrees with the master's record of member i. */
  ghost predicate Told(v: View, i: nat, l: Local)
    requires i < |v.members|
  {
    && l.me.isPrimary == v.members[i].isPrimary
    && (!v.members[i].isPrimary ==> v.primary.Just? && l.primaryInfo.addr == v.primary.value.addr)
  }

  ghost predicate PlainNames(ms: seq<ServerInfo>) {
    Distinct(ms) && forall i :: 0 <= i < |ms| ==> PlainAddr(ms[i].addr)
  }

  /** Every process that is up and held alive will agree with the master. */
  ghost predicate Agreed(p: Proto) {
    && Shaped(p) && Safe(p.view) && PlainNames(p.view.members)
    && (forall i :: 0 <= i < |p.up| ==> Named(p.view.members, p.local[i], i))
    && (forall i :: 0 <= i < |p.up| && p.up[i] && !p.view.members[i].isDead ==> Told(p.view, i, Eventually(p, i)))
  }

  lemma ReceiveStatusLetter(l: Local, isPrimary: bool, primary: Addr, dead: Maybe<Addr>)
    requires PlainAddr(primary) && (dead.Just? ==> PlainAddr(dead.value))
    ensures Receive(l, LetterText(StatusLetter(isPrimary, primary, dead))) ==
            Update(l, if isPrimary then BePrimary(Nothing, dead) else BeSecondary(primary, dead))
  {
    StatusRoundTrip(isPrimary, primary, dead);
  }

  lemma ReceiveNewSecondaryLetter(l: Local, secondary: Addr)
    requires PlainAddr(secondary)
    ensures Receive(l, LetterText(NewSecondaryLetter(secondary))) == Update(l, BePrimary(Just(secondary), Nothing))
  {
    NewSecondaryRoundTrip(secondary);
  }

  /** A status letter with the master's own data makes the receiver agree. */
  lemma StatusTells(v: View, i: nat, l: Local, dead: Maybe<Addr>)
    requires Safe(v) && v.primary.Just? && PlainNames(v.members) && i < |v.members| && Named(v.members, l, i)
    requires dead.Just? ==> PlainAddr(dead.value)
    ensures Told(v, i, Receive(l, LetterText(StatusLetter(v.members[i].isPrimary, v.primary.value.addr, dead))))
  {
    var k := PrimaryOf(v);
    var q := v.primary.value.addr;
    assert PlainAddr(v.members[k].addr);
    ReceiveStatusLetter(l, v.members[i].isPrimary, q, dead);
    var ps := FollowIn(l.peers, l.me.(isPrimary := false, isDead := false), q);
    assert ps[k].addr == q && ps[k] in ps;
  }

  lemma NewSecondaryTells(v: View, i: nat, l: Local, a: Addr)
    requires i < |v.members| && v.members[i].isPrimary && PlainAddr(a)
    ensures Told(v, i, Receive(l, LetterText(NewSecondaryLetter(a))))
  {
    ReceiveNewSecondaryLetter(l, a);
  }

  lemma AfterNames(v: View, c: Change)
    requires CanChange(v, c)
    ensures |After(v, c).members| == |v.members|
    ensures forall j :: 0 <= j < |v.members| ==> After(v, c).members[j].addr == v.members[j].addr
  {
  }

  lemma AfterSafe(v: View, c: Change)
    requires Safe(v) && CanChange(v, c)
    ensures Safe(After(v, c))
  {
    if c.Heard? {
      BeatSafe(v, c.i);
    } else {
      BurySafe(v, c.i);
    }
  }

  /** After a heartbeat, member j is told what it needs to know, or knew it. */
  lemma BeatTells(v: View, i: nat, j: nat, l: Local)
    requires Safe(v) && PlainNames(v.members) && i < |v.members| && j < |v.members| && Named(v.members, l, j)
    requires !v.members[j].isDead ==> Told(v, j, l)
    requires !Beat(v, i).members[j].isDead
    ensures Told(Beat(v, i), j, Drain(l, Texts(BeatMail(v, i, j))))
  {
    var v' := Beat(v, i);
    var mail := BeatMail(v, i, j);
    BeatSafe(v, i);
    AfterNames(v, Heard(i));
    if mail == [] {
      assert Texts(mail) == [];
      if v.primary.Nothing? {
        FirstAliveIfAny(v.members, j);
      }
    } else {
      DrainSnoc(l, [], LetterText(mail[0]));
      assert Texts(mail) == [] + [LetterText(mail[0])];
      BeatLetterTells(v, i, j, l);
    }
  }

  lemma BeatLetterTells(v: View, i: nat, j: nat, l: Local)
    requires Safe(v) && i < |v.members| && j < |v.members| && BeatMail(v, i, j) != []
    requires Safe(Beat(v, i)) && PlainNames(Beat(v, i).members) && Named(Beat(v, i).members, l, j)
    requires !Beat(v, i).members[j].isDead
    ensures Told(Beat(v, i), j, Receive(l, LetterText(BeatMail(v, i, j)[0])))
  {
    var v' := Beat(v, i);
    if j == i {
      StatusTells(v', i, l, Nothing);
    } else {
      NewSecondaryTells(v', j, l, v.members[i].addr);
    }
  }

  lemma FirstAliveIfAny(ms: seq<ServerInfo>, j: nat)
    requires j < |ms|
    ensures !ms[j].isDead ==> AnyAlive(ms)
  {
    if !ms[j].isDead {
      FirstAliveBound(ms, j);
    }
  }

  /** After a death every live member is told the new state of affairs. */
  lemma BuryTells(v: View, i: nat, j: nat, l: Local)
    requires Safe(v) && PlainNames(v.members) && i < |v.members| && j < |v.members| && Named(v.members, l, j)
    requires !v.members[i].isDead && !Bury(v, i).members[j].isDead
    ensures BuryMail(v, i, j) == [StatusLetter(Bury(v, i).members[j].isPrimary, Bury(v, i).primary.value.addr,
      Just(v.members[i].addr))]
    ensures Told(Bury(v, i), j, Drain(l, Texts(BuryMail(v, i, j))))
  {
    var v' := Bury(v, i);
    BurySafe(v, i);
    AfterNames(v, Expired(i));
    FirstAliveIfAny(v'.members, j);
    FirstAliveBound(v'.members, j);
    var letter := StatusLetter(v'.members[j].isPrimary, v'.primary.value.addr, Just(v.members[i].addr));
    if v.members[i].isPrimary {
      SuccessorIsFirst(v, i);
      var k := PrimaryOf(v');
      assert j == k <==> v'.members[j].isPrimary;
    }
    assert BuryMail(v, i, j) == [letter];
    assert Texts([letter]) == [] + [LetterText(letter)];
    DrainSnoc(l, [], LetterText(letter));
    StatusTells(v', j, l, Just(v.members[i].addr));
  }

  lemma SuccessorIsFirst(v: View, i: nat)
    requires Safe(v) && i < |v.members| && v.members[i].isPrimary && Safe(Bury(v, i)) && Bury(v, i).primary.Just?
    ensures PrimaryOf(Bury(v, i)) == FirstAlive(Bury(v, i).members)
  {
    var ms := v.members[i := v.members[i].(isDead := true, isPrimary := false)];
    SameFirstAlive(ms, Bury(v, i).members);
  }

  lemma {:induction false} DrainConcat(l: Local, a: seq<string>, b: seq<string>)
    ensures Drain(l, a + b) == Drain(Drain(l, a), b)
  {
    if b == [] {
      assert a + b == a;
    } else {
      var n := |b| - 1;
      assert (a + b)[..|a + b| - 1] == a + b[..n];
      DrainConcat(l, a, b[..n]);
    }
  }

  lemma PostedAgreed(p: Proto, c: Change, p': Proto)
    requires Agreed(p) && CanChange(p.view, c) && Posted(p, c, p')
    ensures Agreed(p')
  {
    AfterNames(p.view, c);
    AfterSafe(p.view, c);
    forall j | 0 <= j < |p.up| && p.up[j] && !p'.view.members[j].isDead
      ensures Told(p'.view, j, Eventually(p', j))
    {
      var l := Eventually(p, j);
      DrainNamed(p.view.members, p.local[j], j, p.chan[j]);
      DrainConcat(p.local[j], p.chan[j], Texts(MailTo(p.view, c, j)));
      if c.Heard? {
        BeatTells(p.view, c.i, j, l);
      } else {
        BuryTells(p.view, c.i, j, l);
      }
    }
  }

  /** A move that leaves the master alone and changes nobody's eventual knowledge */
  lemma QuietKeepsAgreed(p: Proto, p': Proto)
    requires Agreed(p) && Shaped(p') && p'.view == p.view
    requires forall j :: 0 <= j < |p.up| ==> Named(p.view.members, p'.local[j], j)
    requires forall j :: 0 <= j < |p.up| && p'.up[j] && !p.view.members[j].isDead ==>
      p.up[j] && Eventually(p', j) == Eventually(p, j)
    ensures Agreed(p')
  {
  }

  lemma DeliverQuiet(p: Proto, i: nat, p': Proto)
    requires Shaped(p) && i < |p.up| && Moved(p, Deliver(i), p')
    requires forall j :: 0 <= j < |p.up| ==> Named(p.view.members, p.local[j], j)
    ensures Shaped(p') && p'.view == p.view && p'.up == p.up
    ensures forall j :: 0 <= j < |p.up| ==>
      Named(p.view.members, p'.local[j], j) && Eventually(p', j) == Eventually(p, j)
  {
    DrainFirst(p.local[i], p.chan[i]);
  }

  /** Every move keeps the agreement. */
  lemma MoveKeepsAgreed(p: Proto, m: Move, p': Proto)
    requires Agreed(p) && m.i < |p.up| && Moved(p, m, p')
    ensures Agreed(p')
  {
    match m {
      case Hear(i) => PostedAgreed(p, Heard(i), p');
      case Expire(i) => PostedAgreed(p, Expired(i), p');
      case Deliver(i) =>
        DeliverQuiet(p, i, p');
        QuietKeepsAgreed(p, p');
      case Crash(_) => QuietKeepsAgreed(p, p');
      case Restart(_) => QuietKeepsAgreed(p, p');
    }
  }

  ghost predicate MovedAt(ps: seq<Proto>, ms: seq<Move>, n: int) {
    && 0 <= n < |ms| && n + 1 < |ps|
    && Shaped(ps[n]) && ms[n].i < |ps[n].up| && Moved(ps[n], ms[n], ps[n + 1])
  }

  ghost predicate IsExecution(ps: seq<Proto>, ms: seq<Move>) {
    |ps| == |ms| + 1 && forall n :: 0 <= n < |ms| ==> MovedAt(ps, ms, n)
  }

  /** Nobody heard of, nothing under way, every replica unaware */
  ghost predicate Initial(p: Proto) {
    && Shaped(p) && Fresh(p.view) && PlainNames(p.view.members) && !p.failedOver
    && forall i :: 0 <= i < |p.up| ==> p.chan[i] == [] && Named(p.view.members, p.local[i], i) && Unaware(p.local[i])
  }

  lemma InitialAgreed(p: Proto)
    requires Initial(p)
    ensures Agreed(p)
  {
    if AnyAlive(p.view.members) {
      assert false;
    }
  }

  /** Role agreement: in every reachable state, once the messages under way to a
      running server that the master holds alive are delivered, the server's
      isPrimary is the master's flag for it, and if it is a secondary its
      primaryInfo names the recorded primary. */
  lemma {:induction false} RoleAgreement(ps: seq<Proto>, ms: seq<Move>, n: nat)
    requires IsExecution(ps, ms) && Initial(ps[0]) && n <= |ms|
    ensures Agreed(ps[n])
    ensures forall i :: 0 <= i < |ps[n].up| && ps[n].up[i] && !ps[n].view.members[i].isDead ==>
      Told(ps[n].view, i, Eventually(ps[n], i))
  {
    ReachableAgreed(ps, ms, n);
  }

  lemma {:induction false} ReachableAgreed(ps: seq<Proto>, ms: seq<Move>, n: nat)
    requires IsExecution(ps, ms) && Initial(ps[0]) && n <= |ms|
    ensures Agreed(ps[n])
  {
    if n == 0 {
      InitialAgreed(ps[0]);
    } else {
      ReachableAgreed(ps, ms, n - 1);
      assert MovedAt(ps, ms, n - 1);
      MoveKeepsAgreed(ps[n - 1], ms[n - 1], ps[n]);
    }
  }
}

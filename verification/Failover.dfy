/** What the primary of a group knows about the other servers: everything until the
    first failover, and nothing right after it. */
module Failover {
  import opened Optional
  import opened Status
  import opened Election
  import opened Roles

  /** Replica i's eventual knowledge l while there has been no failover: the primary
      knows who is alive; everybody else holds all others dead and flags at most the
      primary. */
  ghost predicate Aware(v: View, i: nat, l: Local)
    requires Safe(v) && i < |v.members| == |l.peers|
  {
    if v.primary.Just? && i == PrimaryOf(v) then
      forall j :: 0 <= j < |v.members| && j != i ==> !l.peers[j].isPrimary && l.peers[j].isDead == v.members[j].isDead
    else
      forall j :: 0 <= j < |v.members| && j != i ==>
        l.peers[j].isDead && (l.peers[j].isPrimary ==> v.primary.Just? && j == PrimaryOf(v))
  }

  ghost predicate AllAware(p: Proto)
    requires Agreed(p)
  {
    !p.failedOver ==> forall i :: 0 <= i < |p.up| && p.up[i] ==>
      |Eventually(p, i).peers| == |p.view.members| && Aware(p.view, i, Eventually(p, i))
  }

  /** A primary that survives keeps its place in the record. */
  lemma SamePrimary(v: View, v': View)
    requires Safe(v) && Safe(v') && v.primary.Just? && v'.primary == v.primary && |v'.members| == |v.members|
    requires forall j :: 0 <= j < |v.members| ==> v'.members[j].addr == v.members[j].addr
    ensures PrimaryOf(v') == PrimaryOf(v)
  {
    var k, k' := PrimaryOf(v), PrimaryOf(v');
    assert v'.members[k'].addr == v.members[k].addr;
  }

  lemma BeatAware(v: View, i: nat, j: nat, l: Local)
    requires Safe(v) && PlainNames(v.members) && i < |v.members| && j < |v.members| && Named(v.members, l, j)
    requires Aware(v, j, l)
    ensures Safe(Beat(v, i)) && Named(Beat(v, i).members, Drain(l, Texts(BeatMail(v, i, j))), j)
    ensures Aware(Beat(v, i), j, Drain(l, Texts(BeatMail(v, i, j))))
  {
    var v', mail := Beat(v, i), BeatMail(v, i, j);
    BeatSafe(v, i);
    AfterNames(v, Heard(i));
    if mail == [] {
      assert Texts(mail) == [];
      if v.primary.Just? {
        SamePrimary(v, v');
      }
    } else {
      assert Texts(mail) == [] + [LetterText(mail[0])];
      DrainSnoc(l, [], LetterText(mail[0]));
      if v.primary.Nothing? {
        FirstPrimaryAware(v, i, l);
      } else {
        SamePrimary(v, v');
        BeatLetterAware(v, i, j, l);
      }
    }
  }

  /** The very first server of the group becomes its primary. */
  lemma FirstPrimaryAware(v: View, i: nat, l: Local)
    requires Safe(v) && PlainNames(v.members) && i < |v.members| && Named(v.members, l, i)
    requires v.primary.Nothing? && v.members[i].isDead && Aware(v, i, l)
    ensures
      var v' := Beat(v, i);
      && Safe(v') && v'.primary.Just?
      && var l' := Receive(l, LetterText(StatusLetter(v'.members[i].isPrimary, v'.primary.value.addr, Nothing)));
         Named(v'.members, l', i) && Aware(v', i, l')
  {
    var v' := Beat(v, i);
    BeatSafe(v, i);
    ReceiveStatusLetter(l, true, v'.primary.value.addr, Nothing);
    forall j | 0 <= j < |v.members| && j != i
      ensures v.members[j].isDead && v.members[j].addr != l.me.addr
    {
      FirstAliveIfAny(v.members, j);
    }
  }

  /** A server joins an existing primary: the letter to the newcomer */
  lemma NewcomerAware(v: View, v': View, i: nat, l: Local)
    requires Safe(v) && Safe(v') && PlainNames(v.members) && i < |v.members| == |v'.members| && Named(v.members, l, i)
    requires v.primary.Just? && v'.primary == v.primary && PrimaryOf(v') == PrimaryOf(v) != i
    requires Aware(v, i, l)
    ensures
      var l' := Receive(l, LetterText(StatusLetter(false, v.primary.value.addr, Nothing)));
      |l'.peers| == |v.members| && Aware(v', i, l')
  {
    var q, k := v.primary.value.addr, PrimaryOf(v);
    assert PlainAddr(v.members[k].addr);
    ReceiveStatusLetter(l, false, q, Nothing);
    var l' := Receive(l, LetterText(StatusLetter(false, q, Nothing)));
    forall j | 0 <= j < |v.members| && j != i
      ensures l'.peers[j].isDead && (l'.peers[j].isPrimary ==> j == k)
    {
      assert l.peers[j].addr != l.me.addr;
    }
  }

  /** A server joins an existing primary: the letter to the primary */
  lemma PrimaryHears(v: View, v': View, i: nat, l: Local)
    requires Safe(v) && Safe(v') && PlainNames(v.members) && i < |v.members| == |v'.members|
    requires v.primary.Just? && v'.primary == v.primary && PrimaryOf(v') == PrimaryOf(v) != i
    requires Named(v.members, l, PrimaryOf(v)) && Aware(v, PrimaryOf(v), l)
    requires forall j :: 0 <= j < |v.members| ==> v'.members[j].isDead == (j != i && v.members[j].isDead)
    ensures
      var l' := Receive(l, LetterText(NewSecondaryLetter(v.members[i].addr)));
      |l'.peers| == |v.members| && Aware(v', PrimaryOf(v), l')
  {
    var k := PrimaryOf(v);
    assert PlainAddr(v.members[i].addr);
    ReceiveNewSecondaryLetter(l, v.members[i].addr);
    var l' := Receive(l, LetterText(NewSecondaryLetter(v.members[i].addr)));
    forall j | 0 <= j < |v.members| && j != k
      ensures !l'.peers[j].isPrimary && l'.peers[j].isDead == v'.members[j].isDead
    {
      assert l.peers[j].addr != l.me.addr;
      assert j != i ==> l.peers[j].addr != v.members[i].addr;
    }
  }

  lemma BeatLetterAware(v: View, i: nat, j: nat, l: Local)
    requires Safe(v) && PlainNames(v.members) && i < |v.members| && j < |v.members| && Named(v.members, l, j)
    requires Aware(v, j, l) && v.primary.Just? && BeatMail(v, i, j) != []
    requires Safe(Beat(v, i)) && Beat(v, i).primary == v.primary && PrimaryOf(Beat(v, i)) == PrimaryOf(v)
    ensures Named(Beat(v, i).members, Receive(l, LetterText(BeatMail(v, i, j)[0])), j)
    ensures Aware(Beat(v, i), j, Receive(l, LetterText(BeatMail(v, i, j)[0])))
  {
    if j == i {
      NewcomerAware(v, Beat(v, i), i, l);
    } else {
      assert v.members[j].addr == v.members[PrimaryOf(v)].addr;
      PrimaryHears(v, Beat(v, i), i, l);
    }
  }

  /** A secondary dies: everybody alive is told and strikes it off. */
  lemma BuryAware(v: View, i: nat, j: nat, l: Local)
    requires Safe(v) && PlainNames(v.members) && i < |v.members| && j < |v.members| && Named(v.members, l, j)
    requires Aware(v, j, l) && !v.members[i].isDead && !v.members[i].isPrimary
    ensures Safe(Bury(v, i)) && Named(Bury(v, i).members, Drain(l, Texts(BuryMail(v, i, j))), j)
    ensures Aware(Bury(v, i), j, Drain(l, Texts(BuryMail(v, i, j))))
  {
    var v', mail := Bury(v, i), BuryMail(v, i, j);
    BurySafe(v, i);
    AfterNames(v, Expired(i));
    FirstAliveIfAny(v.members, i);
    SamePrimary(v, v');
    DrainNamed(v.members, l, j, Texts(mail));
    DrainMail(l, mail);
    if mail == [] {
      NoLetterAware(v, v', i, j, l);
    } else if j == PrimaryOf(v) {
      PrimaryStrikesOff(v, v', i, l);
    } else {
      SecondaryStrikesOff(v, v', i, j, l);
    }
  }

  /** Only the dead are not told, and they are not the primary. */
  lemma NoLetterAware(v: View, v': View, i: nat, j: nat, l: Local)
    requires Safe(v) && Safe(v') && i < |v.members| == |v'.members| && j < |v.members| && |l.peers| == |v.members|
    requires v.primary.Just? && v'.primary == v.primary && PrimaryOf(v') == PrimaryOf(v) && j != PrimaryOf(v)
    requires Aware(v, j, l)
    ensures Aware(v', j, l)
  {
  }

  lemma PrimaryStrikesOff(v: View, v': View, i: nat, l: Local)
    requires Safe(v) && Safe(v') && PlainNames(v.members) && i < |v.members| == |v'.members|
    requires v.primary.Just? && v'.primary == v.primary && PrimaryOf(v') == PrimaryOf(v) != i
    requires Named(v.members, l, PrimaryOf(v)) && Aware(v, PrimaryOf(v), l)
    requires forall j :: 0 <= j < |v.members| ==> v'.members[j].isDead == (j == i || v.members[j].isDead)
    ensures
      var l' := Receive(l, LetterText(StatusLetter(true, v.primary.value.addr, Just(v.members[i].addr))));
      |l'.peers| == |v.members| && Aware(v', PrimaryOf(v), l')
  {
    var k := PrimaryOf(v);
    assert PlainAddr(v.members[i].addr) && PlainAddr(v.members[k].addr);
    ReceiveStatusLetter(l, true, v.primary.value.addr, Just(v.members[i].addr));
    var l' := Receive(l, LetterText(StatusLetter(true, v.primary.value.addr, Just(v.members[i].addr))));
    forall j | 0 <= j < |v.members| && j != k
      ensures !l'.peers[j].isPrimary && l'.peers[j].isDead == v'.members[j].isDead
    {
      assert l.peers[j].addr != l.me.addr;
      assert j != i ==> l.peers[j].addr != v.members[i].addr;
    }
  }

  lemma SecondaryStrikesOff(v: View, v': View, i: nat, j: nat, l: Local)
    requires Safe(v) && Safe(v') && PlainNames(v.members) && i < |v.members| == |v'.members| && j < |v.members|
    requires v.primary.Just? && v'.primary == v.primary && PrimaryOf(v') == PrimaryOf(v) && j != PrimaryOf(v)
    requires Named(v.members, l, j) && Aware(v, j, l)
    ensures
      var l' := Receive(l, LetterText(StatusLetter(false, v.primary.value.addr, Just(v.members[i].addr))));
      |l'.peers| == |v.members| && Aware(v', j, l')
  {
    var k := PrimaryOf(v);
    assert PlainAddr(v.members[i].addr) && PlainAddr(v.members[k].addr);
    ReceiveStatusLetter(l, false, v.primary.value.addr, Just(v.members[i].addr));
    var l' := Receive(l, LetterText(StatusLetter(false, v.primary.value.addr, Just(v.members[i].addr))));
    forall h | 0 <= h < |v.members| && h != j
      ensures l'.peers[h].isDead && (l'.peers[h].isPrimary ==> h == k)
    {
      assert l.peers[h].addr != l.me.addr;
    }
  }

  lemma PostedAware(p: Proto, c: Change, p': Proto)
    requires Agreed(p) && AllAware(p) && CanChange(p.view, c) && Posted(p, c, p')
    ensures Agreed(p') && AllAware(p')
  {
    PostedAgreed(p, c, p');
    if !p'.failedOver {
      forall j | 0 <= j < |p.up| && p.up[j]
        ensures |Eventually(p', j).peers| == |p.view.members| && Aware(p'.view, j, Eventually(p', j))
      {
        var l := Eventually(p, j);
        DrainNamed(p.view.members, p.local[j], j, p.chan[j]);
        DrainConcat(p.local[j], p.chan[j], Texts(MailTo(p.view, c, j)));
        if c.Heard? {
          BeatAware(p.view, c.i, j, l);
        } else {
          BuryAware(p.view, c.i, j, l);
        }
      }
    }
  }

  lemma CrashAware(p: Proto, i: nat, p': Proto)
    requires Agreed(p) && AllAware(p) && i < |p.up| && Moved(p, Crash(i), p') && Agreed(p')
    ensures AllAware(p')
  {
    assert forall j :: 0 <= j < |p.up| && p'.up[j] ==> Eventually(p', j) == Eventually(p, j);
  }

  lemma RestartAware(p: Proto, i: nat, p': Proto)
    requires Agreed(p) && AllAware(p) && i < |p.up| && Moved(p, Restart(i), p') && Agreed(p')
    ensures AllAware(p')
  {
    assert forall j :: 0 <= j < |p.up| && j != i ==> Eventually(p', j) == Eventually(p, j);
    assert Eventually(p', i) == p'.local[i];
  }

  lemma MoveKeepsAware(p: Proto, m: Move, p': Proto)
    requires Agreed(p) && AllAware(p) && m.i < |p.up| && Moved(p, m, p')
    ensures Agreed(p') && AllAware(p')
  {
    MoveKeepsAgreed(p, m, p');
    match m {
      case Hear(i) => PostedAware(p, Heard(i), p');
      case Expire(i) => PostedAware(p, Expired(i), p');
      case Deliver(i) => DeliverQuiet(p, i, p');
      case Crash(i) => CrashAware(p, i, p');
      case Restart(i) => RestartAware(p, i, p');
    }
  }

  lemma {:induction false} ReachableAware(ps: seq<Proto>, ms: seq<Move>, n: nat)
    requires IsExecution(ps, ms) && Initial(ps[0]) && n <= |ms|
    ensures Agreed(ps[n]) && AllAware(ps[n])
  {
    if n == 0 {
      InitialAgreed(ps[0]);
    } else {
      ReachableAware(ps, ms, n - 1);
      assert MovedAt(ps, ms, n - 1);
      MoveKeepsAware(ps[n - 1], ms[n - 1], ps[n]);
    }
  }

  /** The servers a primary forwards to */
  predicate BelievedAlive(l: Local, j: nat)
    requires j < |l.peers|
  {
    !l.peers[j].isPrimary && !l.peers[j].isDead
  }

  /** l believes alive exactly the members, other than itself, that the master does. */
  ghost predicate KnowsTheLiving(v: View, k: nat, l: Local)
    requires |l.peers| == |v.members|
  {
    forall j :: 0 <= j < |v.members| && j != k ==> (BelievedAlive(l, j) <==> !v.members[j].isDead)
  }

  /** Until the first failover the running primary will know exactly who is alive. */
  lemma PrimaryKnowsTheLiving(ps: seq<Proto>, ms: seq<Move>, n: nat)
    requires IsExecution(ps, ms) && Initial(ps[0]) && n <= |ms|
    ensures Agreed(ps[n])
    ensures
      var p := ps[n];
      !p.failedOver && p.view.primary.Just? && p.up[PrimaryOf(p.view)] ==>
        var k := PrimaryOf(p.view);
        |Eventually(p, k).peers| == |p.view.members| && KnowsTheLiving(p.view, k, Eventually(p, k))
  {
    ReachableAware(ps, ms, n);
  }

  /** At the first failover the successor will hold everybody else dead and flag
      nobody, since it is not told who is alive; so it knows the living exactly
      when there are none besides itself. */
  lemma FailoverForgets(ps: seq<Proto>, ms: seq<Move>, n: nat)
    requires IsExecution(ps, ms) && Initial(ps[0]) && n < |ms|
    requires !ps[n].failedOver && ps[n + 1].failedOver
    ensures Agreed(ps[n + 1])
    ensures
      var p := ps[n + 1];
      p.view.primary.Just? && p.up[PrimaryOf(p.view)] ==>
        var k := PrimaryOf(p.view);
        var l := Eventually(p, k);
        && |l.peers| == |p.view.members|
        && (forall j :: 0 <= j < |l.peers| && j != k ==> l.peers[j].isDead && !l.peers[j].isPrimary)
        && (KnowsTheLiving(p.view, k, l) <==> forall j :: 0 <= j < |l.peers| && j != k ==> p.view.members[j].isDead)
  {
    ReachableAware(ps, ms, n);
    ReachableAware(ps, ms, n + 1);
    var p, p', m := ps[n], ps[n + 1], ms[n];
    assert MovedAt(ps, ms, n);
    assert m.Expire? && p.view.members[m.i].isPrimary;
    if p'.view.primary.Just? && p'.up[PrimaryOf(p'.view)] {
      var k, v := PrimaryOf(p'.view), p.view;
      var l := Eventually(p, k);
      BurySafe(v, m.i);
      DrainNamed(v.members, p.local[k], k, p.chan[k]);
      SuccessorForgets(v, m.i, k, l);
      DrainConcat(p.local[k], p.chan[k], Texts(BuryMail(v, m.i, k)));
    }
  }

  lemma SuccessorForgets(v: View, i: nat, k: nat, l: Local)
    requires Safe(v) && PlainNames(v.members) && i < |v.members| && k < |v.members| && Named(v.members, l, k)
    requires v.members[i].isPrimary && Aware(v, k, l)
    requires Safe(Bury(v, i)) && Bury(v, i).primary.Just? && k == PrimaryOf(Bury(v, i))
    ensures
      var l' := Drain(l, Texts(BuryMail(v, i, k)));
      && |l'.peers| == |v.members|
      && forall j :: 0 <= j < |l'.peers| && j != k ==> l'.peers[j].isDead && !l'.peers[j].isPrimary
  {
    assert v.members[i] == v.primary.value && i == PrimaryOf(v);
    BuryTells(v, i, k, l);
    var letter := BuryMail(v, i, k)[0];
    assert Texts(BuryMail(v, i, k)) == [] + [LetterText(letter)];
    DrainSnoc(l, [], LetterText(letter));
    AfterNames(v, Expired(i));
    PromotionLetter(v, i, k, l, Bury(v, i).primary.value.addr);
  }

  /** The letter that promotes k strikes the old primary i off a list on which
      everybody else is dead already. */
  lemma PromotionLetter(v: View, i: nat, k: nat, l: Local, q: Addr)
    requires Safe(v) && PlainNames(v.members) && i < |v.members| && k < |v.members| && Named(v.members, l, k)
    requires v.primary.Just? && i == PrimaryOf(v) && i != k && Aware(v, k, l) && q == v.members[k].addr
    ensures
      var l' := Receive(l, LetterText(StatusLetter(true, q, Just(v.members[i].addr))));
      && |l'.peers| == |v.members|
      && forall j :: 0 <= j < |l'.peers| && j != k ==> l'.peers[j].isDead && !l'.peers[j].isPrimary
  {
    assert PlainAddr(v.members[k].addr) && PlainAddr(v.members[i].addr);
    ReceiveStatusLetter(l, true, q, Just(v.members[i].addr));
    forall j | 0 <= j < |v.members| && j != k
      ensures l.peers[j].addr != l.me.addr
    {
    }
  }

  // ---- From the first failover to the second ----

  /** The members heard from again, after having been dead, and not expired since */
  function SinceMove(v: View, m: Move, since: set<nat>): set<nat> {
    match m
    case Hear(i) => if i < |v.members| && v.members[i].isDead then since + {i} else since
    case Expire(i) => since - {i}
    case _ => since
  }

  function Since(ps: seq<Proto>, ms: seq<Move>, from: nat, n: nat): set<nat>
    requires n <= |ms| && |ps| == |ms| + 1
  {
    if n <= from then {} else SinceMove(ps[n - 1].view, ms[n - 1], Since(ps, ms, from, n - 1))
  }

  /** Of the others, l flags none as primary and holds alive exactly those in since. */
  ghost predicate KnowsSince(l: Local, k: nat, since: set<nat>) {
    forall j: nat :: j < |l.peers| && j != k ==> !l.peers[j].isPrimary && (l.peers[j].isDead <==> j !in since)
  }

  ghost predicate PrimaryKnows(p: Proto, since: set<nat>) {
    && Agreed(p) && p.view.primary.Just?
    && (p.up[PrimaryOf(p.view)] ==>
          && |Eventually(p, PrimaryOf(p.view)).peers| == |p.view.members|
          && KnowsSince(Eventually(p, PrimaryOf(p.view)), PrimaryOf(p.view), since))
  }

  predicate PrimaryDies(p: Proto, m: Move) {
    m.Expire? && m.i < |p.view.members| && p.view.members[m.i].isPrimary
  }

  lemma HeardSince(v: View, i: nat, k: nat, l: Local, since: set<nat>)
    requires Safe(v) && PlainNames(v.members) && i < |v.members| && v.primary.Just? && k == PrimaryOf(v)
    requires Named(v.members, l, k) && KnowsSince(l, k, since)
    ensures
      var l' := Drain(l, Texts(BeatMail(v, i, k)));
      |l'.peers| == |v.members| && KnowsSince(l', k, SinceMove(v, Hear(i), since))
  {
    var mail := BeatMail(v, i, k);
    if v.members[i].isDead {
      assert mail == [NewSecondaryLetter(v.members[i].addr)];
      AddedSince(v.members, i, k, l, since);
    }
    DrainMail(l, mail);
  }

  lemma AddedSince(ms: seq<ServerInfo>, i: nat, k: nat, l: Local, since: set<nat>)
    requires PlainNames(ms) && i < |ms| && k < |ms| && i != k && Named(ms, l, k) && KnowsSince(l, k, since)
    ensures
      var l' := Receive(l, LetterText(NewSecondaryLetter(ms[i].addr)));
      |l'.peers| == |ms| && KnowsSince(l', k, since + {i})
  {
    ReceiveNewSecondaryLetter(l, ms[i].addr);
    OthersNamed(ms, l, k, i);
  }

  lemma OthersNamed(ms: seq<ServerInfo>, l: Local, k: nat, i: nat)
    requires Distinct(ms) && k < |ms| && i < |ms| && Named(ms, l, k)
    ensures forall j :: 0 <= j < |ms| && j != k ==> l.peers[j].addr != l.me.addr
    ensures forall j :: 0 <= j < |ms| && j != i ==> l.peers[j].addr != ms[i].addr
    ensures l.peers[i].addr == ms[i].addr
  {
  }

  lemma ExpiredSince(v: View, i: nat, k: nat, l: Local, since: set<nat>)
    requires Safe(v) && PlainNames(v.members) && i < |v.members| && v.primary.Just? && k == PrimaryOf(v)
    requires !v.members[i].isDead && !v.members[i].isPrimary
    requires Named(v.members, l, k) && KnowsSince(l, k, since)
    ensures
      var l' := Drain(l, Texts(BuryMail(v, i, k)));
      |l'.peers| == |v.members| && KnowsSince(l', k, SinceMove(v, Expire(i), since))
  {
    var mail := BuryMail(v, i, k);
    assert mail == [StatusLetter(true, v.primary.value.addr, Just(v.members[i].addr))];
    DrainMail(l, mail);
    RemovedSince(v.members, i, k, l, since, v.primary.value.addr);
  }

  lemma RemovedSince(ms: seq<ServerInfo>, i: nat, k: nat, l: Local, since: set<nat>, q: Addr)
    requires PlainNames(ms) && i < |ms| && k < |ms| && i != k && Named(ms, l, k) && KnowsSince(l, k, since)
    requires q == ms[k].addr
    ensures
      var l' := Receive(l, LetterText(StatusLetter(true, q, Just(ms[i].addr))));
      |l'.peers| == |ms| && KnowsSince(l', k, since - {i})
  {
    OthersNamed(ms, l, k, i);
    StatusEntries(l, true, q, Just(ms[i].addr));
  }

  lemma PostedSince(p: Proto, c: Change, p': Proto, since: set<nat>, m: Move)
    requires PrimaryKnows(p, since) && CanChange(p.view, c) && Posted(p, c, p')
    requires m == if c.Heard? then Hear(c.i) else Expire(c.i)
    requires !PrimaryDies(p, m)
    ensures PrimaryKnows(p', SinceMove(p.view, m, since)) && p'.view.primary == p.view.primary
  {
    var v, k := p.view, PrimaryOf(p.view);
    PostedAgreed(p, c, p');
    AfterNames(v, c);
    if c.Heard? {
      BeatSafe(v, c.i);
    } else {
      BurySafe(v, c.i);
    }
    SamePrimary(v, p'.view);
    if p.up[k] {
      DrainNamed(v.members, p.local[k], k, p.chan[k]);
      DrainConcat(p.local[k], p.chan[k], Texts(MailTo(v, c, k)));
      if c.Heard? {
        HeardSince(v, c.i, k, Eventually(p, k), since);
      } else {
        ExpiredSince(v, c.i, k, Eventually(p, k), since);
      }
    }
  }

  lemma SinceStep(p: Proto, m: Move, p': Proto, since: set<nat>)
    requires PrimaryKnows(p, since) && m.i < |p.up| && Moved(p, m, p') && !PrimaryDies(p, m)
    ensures PrimaryKnows(p', SinceMove(p.view, m, since)) && p'.view.primary == p.view.primary
  {
    match m {
      case Hear(i) => PostedSince(p, Heard(i), p', since, m);
      case Expire(i) => PostedSince(p, Expired(i), p', since, m);
      case Deliver(i) =>
        MoveKeepsAgreed(p, m, p');
        DeliverQuiet(p, i, p');
      case Crash(i) => MoveKeepsAgreed(p, m, p');
      case Restart(i) => MoveKeepsAgreed(p, m, p');
    }
  }

  lemma KnowsNobody(ps: seq<Proto>, ms: seq<Move>, n: nat)
    requires IsExecution(ps, ms) && Initial(ps[0]) && n < |ms|
    requires !ps[n].failedOver && ps[n + 1].failedOver && ps[n + 1].view.primary.Just?
    ensures PrimaryKnows(ps[n + 1], {})
  {
    FailoverForgets(ps, ms, n);
  }

  lemma SinceStepAt(ps: seq<Proto>, ms: seq<Move>, n: nat, since: set<nat>)
    requires IsExecution(ps, ms) && n < |ms| && PrimaryKnows(ps[n], since) && !PrimaryDies(ps[n], ms[n])
    ensures PrimaryKnows(ps[n + 1], SinceMove(ps[n].view, ms[n], since)) && ps[n + 1].view.primary == ps[n].view.primary
  {
    assert MovedAt(ps, ms, n);
    SinceStep(ps[n], ms[n], ps[n + 1], since);
  }

  /** No primary is declared dead between the two states. */
  ghost predicate Quiet(ps: seq<Proto>, ms: seq<Move>, from: nat, n: nat)
    requires n <= |ms| <= |ps|
  {
    forall i: nat :: from <= i < n ==> !PrimaryDies(ps[i], ms[i])
  }

  lemma QuietAt(ps: seq<Proto>, ms: seq<Move>, from: nat, n: nat)
    requires n < |ms| <= |ps| && from <= n && Quiet(ps, ms, from, n + 1)
    ensures Quiet(ps, ms, from, n) && !PrimaryDies(ps[n], ms[n])
  {
  }

  lemma {:induction false} KeepsKnowing(ps: seq<Proto>, ms: seq<Move>, from: nat, n: nat)
    requires IsExecution(ps, ms) && from <= n <= |ms| && PrimaryKnows(ps[from], {}) && Quiet(ps, ms, from, n)
    ensures PrimaryKnows(ps[n], Since(ps, ms, from, n)) && ps[n].view.primary == ps[from].view.primary
  {
    if from < n {
      QuietAt(ps, ms, from, n - 1);
      KeepsKnowing(ps, ms, from, n - 1);
      SinceStepAt(ps, ms, n - 1, Since(ps, ms, from, n - 1));
    }
  }

  /** Until the second failover the successor will believe alive exactly the members
      heard from again since its promotion, after having been dead, and not expired
      since; those that were alive all along it never learns of. */
  lemma SuccessorKnows(ps: seq<Proto>, ms: seq<Move>, n0: nat, n: nat)
    requires IsExecution(ps, ms) && Initial(ps[0]) && n0 < n <= |ms|
    requires !ps[n0].failedOver && ps[n0 + 1].failedOver && ps[n0 + 1].view.primary.Just?
    requires Quiet(ps, ms, n0 + 1, n)
    ensures PrimaryKnows(ps[n], Since(ps, ms, n0 + 1, n)) && ps[n].view.primary == ps[n0 + 1].view.primary
  {
    KnowsNobody(ps, ms, n0);
    KeepsKnowing(ps, ms, n0 + 1, n);
  }

  // ---- The dead are struck off ----

  /** l holds member i dead and does not flag it. */
  predicate StruckOff(l: Local, i: nat) {
    i < |l.peers| && l.peers[i].isDead && !l.peers[i].isPrimary
  }

  /** The letter names i, if at all, as the dead server. */
  predicate NotPraising(letter: Letter, ms: seq<ServerInfo>, i: nat)
    requires i < |ms|
  {
    match letter
    case StatusLetter(_, primary, dead) =>
      primary != ms[i].addr && PlainAddr(primary) && (dead.Just? ==> PlainAddr(dead.value))
    case NewSecondaryLetter(secondary) => secondary != ms[i].addr && PlainAddr(secondary)
  }

  /** Such a letter leaves i struck off, and strikes it off if it names it. */
  lemma LetterStrikes(ms: seq<ServerInfo>, l: Local, j: nat, i: nat, letter: Letter)
    requires PlainNames(ms) && i < |ms| && j < |ms| && i != j && Named(ms, l, j) && NotPraising(letter, ms, i)
    requires StruckOff(l, i) || (letter.StatusLetter? && letter.dead == Just(ms[i].addr))
    ensures StruckOff(Receive(l, LetterText(letter)), i)
  {
    OthersNamed(ms, l, j, i);
    match letter {
      case StatusLetter(isPrimary, primary, dead) => StatusEntries(l, isPrimary, primary, dead);
      case NewSecondaryLetter(secondary) => NewSecondaryEntries(l, secondary);
    }
  }

  lemma DeadIsNotPrimary(v: View, i: nat)
    requires Safe(v) && PlainNames(v.members) && v.primary.Just? && i < |v.members| && v.members[i].isDead
    ensures v.primary.value.addr != v.members[i].addr && PlainAddr(v.primary.value.addr)
  {
    var k := PrimaryOf(v);
    assert PlainAddr(v.members[k].addr);
  }

  /** No letter sent while i is dead, and not heard from, makes anything of it. */
  lemma MailDoesNotPraise(v: View, c: Change, j: nat, i: nat)
    requires Safe(v) && PlainNames(v.members) && CanChange(v, c) && j < |v.members| && i < |v.members|
    requires After(v, c).members[i].isDead && c != Heard(i)
    ensures |MailTo(v, c, j)| <= 1
    ensures forall letter :: letter in MailTo(v, c, j) ==> NotPraising(letter, v.members, i)
  {
    var v' := After(v, c);
    AfterSafe(v, c);
    AfterNames(v, c);
    assert PlainAddr(v.members[c.i].addr);
    if v'.primary.Just? {
      DeadIsNotPrimary(v', i);
    }
  }

  /** Once its messages have arrived, j holds i, dead at the master, struck off. */
  ghost predicate KnowsDead(p: Proto, j: nat, i: nat) {
    && Agreed(p) && i < |p.up| && j < |p.up| && i != j && p.view.members[i].isDead
    && (p.up[j] ==> StruckOff(Eventually(p, j), i))
  }

  lemma PostedKnowsDead(p: Proto, c: Change, p': Proto, j: nat, i: nat)
    requires KnowsDead(p, j, i) && CanChange(p.view, c) && c != Heard(i) && Posted(p, c, p')
    ensures KnowsDead(p', j, i)
  {
    var v, l, mail := p.view, Eventually(p, j), MailTo(p.view, c, j);
    PostedAgreed(p, c, p');
    StaysDead(v, c, i);
    if p.up[j] {
      MailDoesNotPraise(v, c, j, i);
      DrainNamed(v.members, p.local[j], j, p.chan[j]);
      DrainConcat(p.local[j], p.chan[j], Texts(mail));
      DrainMail(l, mail);
      if mail != [] {
        LetterStrikes(v.members, l, j, i, mail[0]);
      }
    }
  }

  lemma StaysDead(v: View, c: Change, i: nat)
    requires Safe(v) && CanChange(v, c) && i < |v.members| && v.members[i].isDead && c != Heard(i)
    ensures After(v, c).members[i].isDead
  {
    if c.Heard? {
      BeatSafe(v, c.i);
    } else {
      BurySafe(v, c.i);
    }
  }

  /** At most one letter comes at a time. */
  lemma DrainMail(l: Local, mail: seq<Letter>)
    requires |mail| <= 1
    ensures Drain(l, Texts(mail)) == if mail == [] then l else Receive(l, LetterText(mail[0]))
  {
    if mail == [] {
      assert Texts(mail) == [];
    } else {
      assert Texts(mail) == [] + [LetterText(mail[0])];
      DrainSnoc(l, [], LetterText(mail[0]));
    }
  }

  lemma MoveKnowsDead(p: Proto, m: Move, p': Proto, j: nat, i: nat)
    requires KnowsDead(p, j, i) && m.i < |p.up| && m != Hear(i) && Moved(p, m, p')
    ensures KnowsDead(p', j, i)
  {
    match m {
      case Hear(h) => PostedKnowsDead(p, Heard(h), p', j, i);
      case Expire(h) => PostedKnowsDead(p, Expired(h), p', j, i);
      case Deliver(h) =>
        MoveKeepsAgreed(p, m, p');
        DeliverQuiet(p, h, p');
      case Crash(_) => MoveKeepsAgreed(p, m, p');
      case Restart(h) =>
        MoveKeepsAgreed(p, m, p');
        if h == j {
          assert Eventually(p', j) == p'.local[j];
        } else {
          assert Eventually(p', j) == Eventually(p, j);
        }
    }
  }

  /** The death of i is told to every other member held alive. */
  lemma DeathIsTold(p: Proto, i: nat, p': Proto, j: nat)
    requires Agreed(p) && i < |p.up| && j < |p.up| && Moved(p, Expire(i), p') && !p'.view.members[j].isDead
    ensures KnowsDead(p', j, i)
  {
    var v, l := p.view, Eventually(p, j);
    PostedAgreed(p, Expired(i), p');
    BurySafe(v, i);
    if p.up[j] {
      DrainNamed(v.members, p.local[j], j, p.chan[j]);
      BuryTells(v, i, j, l);
      DrainConcat(p.local[j], p.chan[j], Texts(BuryMail(v, i, j)));
      DrainMail(l, BuryMail(v, i, j));
      MailDoesNotPraise(v, Expired(i), j, i);
      LetterStrikes(v.members, l, j, i, BuryMail(v, i, j)[0]);
    }
  }

  ghost predicate NotHeard(ms: seq<Move>, i: nat, from: nat, n: nat) {
    forall k: nat :: from <= k < n && k < |ms| ==> ms[k] != Hear(i)
  }

  lemma DeathToldAt(ps: seq<Proto>, ms: seq<Move>, n: nat, i: nat, j: nat)
    requires IsExecution(ps, ms) && Initial(ps[0]) && n < |ms| && ms[n] == Expire(i)
    requires j < |ps[n + 1].up| && |ps[n + 1].view.members| == |ps[n + 1].up| && !ps[n + 1].view.members[j].isDead
    ensures KnowsDead(ps[n + 1], j, i)
  {
    ReachableAgreed(ps, ms, n);
    assert MovedAt(ps, ms, n);
    DeathIsTold(ps[n], i, ps[n + 1], j);
  }

  lemma KnowsDeadAt(ps: seq<Proto>, ms: seq<Move>, n: nat, i: nat, j: nat)
    requires IsExecution(ps, ms) && n < |ms| && ms[n] != Hear(i) && KnowsDead(ps[n], j, i)
    ensures KnowsDead(ps[n + 1], j, i)
  {
    assert MovedAt(ps, ms, n);
    MoveKnowsDead(ps[n], ms[n], ps[n + 1], j, i);
  }

  lemma {:induction false} KeepsDead(ps: seq<Proto>, ms: seq<Move>, from: nat, n: nat, i: nat, j: nat)
    requires IsExecution(ps, ms) && from <= n <= |ms| && KnowsDead(ps[from], j, i) && NotHeard(ms, i, from, n)
    ensures KnowsDead(ps[n], j, i)
  {
    if from < n {
      KeepsDead(ps, ms, from, n - 1, i, j);
      KnowsDeadAt(ps, ms, n - 1, i, j);
    }
  }

  /** When member i is declared dead, every other running member that the master holds
      alive will hold it dead and unflagged once its messages are delivered, whatever
      its role, and until i is heard from again it will hold it so in every later
      state in which it runs. */
  lemma DeadAreStruckOff(ps: seq<Proto>, ms: seq<Move>, n0: nat, n: nat, i: nat, j: nat)
    requires IsExecution(ps, ms) && Initial(ps[0]) && n0 < n <= |ms|
    requires ms[n0] == Expire(i) && NotHeard(ms, i, n0 + 1, n)
    requires j < |ps[n0 + 1].up| && |ps[n0 + 1].view.members| == |ps[n0 + 1].up| && !ps[n0 + 1].view.members[j].isDead
    ensures Agreed(ps[n]) && j < |ps[n].up|
    ensures
      ps[n].up[j] ==>
        var l := Eventually(ps[n], j);
        i < |l.peers| && l.peers[i].isDead && !l.peers[i].isPrimary
  {
    DeathToldAt(ps, ms, n0, i, j);
    KeepsDead(ps, ms, n0 + 1, n, i, j);
  }
}

/** The master's record of one replica group as a value: revival, death and
    failover, and what each of them sends to whom. */
module Election {
  import opened Optional
  import opened Status

  /** servers[g] and primaryServers[g], if it has an entry */
  datatype View = View(members: seq<ServerInfo>, primary: Maybe<ServerInfo>)

  /** One datagram: a call of sendIsPrimary or sendNewSecondaryInfoToPrimary */
  datatype Letter =
    | StatusLetter(isPrimary: bool, primary: Addr, dead: Maybe<Addr>)
    | NewSecondaryLetter(secondary: Addr)

  function LetterText(l: Letter): string {
    match l
    case StatusLetter(isPrimary, primary, dead) => StatusText(isPrimary, primary, dead)
    case NewSecondaryLetter(secondary) => NewSecondaryText(secondary)
  }

  // ---- Operations ----

  function FirstAlive(ms: seq<ServerInfo>): (k: nat)
    ensures k <= |ms|
    ensures k < |ms| ==> !ms[k].isDead
    ensures forall j :: 0 <= j < k ==> ms[j].isDead
  {
    if ms == [] || !ms[0].isDead then 0 else 1 + FirstAlive(ms[1..])
  }

  /** A heartbeat of member i, as recvHeartbeat takes it */
  function Beat(v: View, i: nat): View
    requires i < |v.members|
  {
    var m := v.members[i];
    if !m.isDead then v
    else if v.primary.Nothing? then
      var m' := m.(isDead := false, isPrimary := true);
      View(v.members[i := m'], Just(m'))
    else View(v.members[i := m.(isDead := false)], v.primary)
  }

  /** Member i declared dead, as checkHeartbeats does it */
  function Bury(v: View, i: nat): View
    requires i < |v.members|
  {
    var m := v.members[i];
    var ms := v.members[i := m.(isDead := true, isPrimary := false)];
    if !m.isPrimary then View(ms, v.primary)
    else if FirstAlive(ms) == |ms| then View(ms, Nothing)
    else
      var k := FirstAlive(ms);
      var m' := ms[k].(isPrimary := true);
      View(ms[k := m'], Just(m'))
  }

  /** What a heartbeat of member i makes the master send to member j */
  function BeatMail(v: View, i: nat, j: nat): seq<Letter>
    requires i < |v.members| && j < |v.members|
  {
    var v' := Beat(v, i);
    if !v.members[i].isDead || v'.primary.Nothing? then []
    else if j == i then [StatusLetter(v'.members[i].isPrimary, v'.primary.value.addr, Nothing)]
    else if !v'.members[i].isPrimary && v.members[j].addr == v'.primary.value.addr then
      [NewSecondaryLetter(v.members[i].addr)]
    else []
  }

  /** What the death of member i makes the master send to member j. After a failover
      everybody behind the new primary is told, dead or alive. */
  function BuryMail(v: View, i: nat, j: nat): seq<Letter>
    requires i < |v.members| && j < |v.members|
  {
    var v' := Bury(v, i);
    if v'.primary.Nothing? then []
    else if v.members[i].isPrimary then
      var k := FirstAlive(v'.members);
      if j == k then [StatusLetter(true, v'.primary.value.addr, Just(v.members[i].addr))]
      else if j > k then [StatusLetter(false, v'.primary.value.addr, Just(v.members[i].addr))]
      else []
    else if !v'.members[j].isDead then
      [StatusLetter(v'.members[j].isPrimary, v'.primary.value.addr, Just(v.members[i].addr))]
    else []
  }

  // ---- Safety ----

  ghost predicate Distinct(ms: seq<ServerInfo>) {
    forall i, j :: 0 <= i < j < |ms| ==> ms[i].addr != ms[j].addr
  }

  predicate AnyAlive(ms: seq<ServerInfo>) {
    FirstAlive(ms) < |ms|
  }

  /** Exactly one member is flagged if any is alive, none otherwise; the flagged one
      is alive and is the recorded primary. */
  ghost predicate Safe(v: View) {
    && Distinct(v.members)
    && (v.primary.Just? <==> AnyAlive(v.members))
    && (forall i :: 0 <= i < |v.members| ==>
         && (v.members[i].isPrimary <==> v.primary == Just(v.members[i]))
         && (v.members[i].isPrimary ==> !v.members[i].isDead))
    && (v.primary.Just? ==> v.primary.value in v.members)
  }

  /** Position of the flagged member */
  ghost function PrimaryOf(v: View): (k: nat)
    requires Safe(v) && v.primary.Just?
    ensures k < |v.members| && v.members[k] == v.primary.value && v.members[k].isPrimary && !v.members[k].isDead
    ensures forall i :: 0 <= i < |v.members| && i != k ==> !v.members[i].isPrimary
  {
    var k :| 0 <= k < |v.members| && v.members[k] == v.primary.value;
    k
  }

  lemma FirstAliveBound(ms: seq<ServerInfo>, i: nat)
    requires i < |ms| && !ms[i].isDead
    ensures FirstAlive(ms) <= i
  {
  }

  lemma BeatSafe(v: View, i: nat)
    requires Safe(v) && i < |v.members|
    ensures Safe(Beat(v, i)) && !Beat(v, i).members[i].isDead
    ensures v.primary.Just? ==> Beat(v, i).primary == v.primary
    ensures forall j :: 0 <= j < |v.members| && j != i ==> Beat(v, i).members[j] == v.members[j]
  {
    var v' := Beat(v, i);
    FirstAliveBound(v'.members, i);
    if v.primary.Just? {
      var k := PrimaryOf(v);
      if v.members[i].isDead {
        assert v'.members[k] == v.members[k];
      }
    } else if v.members[i].isDead {
      assert v'.members[i] == v'.primary.value;
    }
  }

  /** Burying a member leaves the record safe and changes the recorded primary only
      if it is that member. */
  lemma BurySafe(v: View, i: nat)
    requires Safe(v) && i < |v.members| && !v.members[i].isDead
    ensures Safe(Bury(v, i)) && Bury(v, i).members[i].isDead
    ensures Bury(v, i).primary != v.primary <==> v.members[i].isPrimary
    ensures forall j :: 0 <= j < |v.members| && j != i ==> Bury(v, i).members[j].isDead == v.members[j].isDead
  {
    if v.members[i].isPrimary {
      BuryPrimarySafe(v, i);
    } else {
      BuryOtherSafe(v, i);
    }
  }

  lemma BuryPrimarySafe(v: View, i: nat)
    requires Safe(v) && i < |v.members| && !v.members[i].isDead && v.members[i].isPrimary
    ensures Safe(Bury(v, i)) && Bury(v, i).members[i].isDead && Bury(v, i).primary != v.primary
    ensures forall j :: 0 <= j < |v.members| && j != i ==> Bury(v, i).members[j].isDead == v.members[j].isDead
  {
    var v' := Bury(v, i);
    var ms := v.members[i := v.members[i].(isDead := true, isPrimary := false)];
    if FirstAlive(ms) < |ms| {
      FirstAliveBound(v'.members, FirstAlive(ms));
      assert v'.members[FirstAlive(ms)] == v'.primary.value;
    }
  }

  lemma BuryOtherSafe(v: View, i: nat)
    requires Safe(v) && i < |v.members| && !v.members[i].isDead && !v.members[i].isPrimary
    ensures Safe(Bury(v, i)) && Bury(v, i).members[i].isDead && Bury(v, i).primary == v.primary
    ensures forall j :: 0 <= j < |v.members| && j != i ==> Bury(v, i).members[j].isDead == v.members[j].isDead
  {
    FirstAliveBound(v.members, i);
    var v', k := Bury(v, i), PrimaryOf(v);
    assert v'.members[k] == v.members[k];
    FirstAliveBound(v'.members, k);
  }

  /** Nobody else's flag or liveness changes but those of the dead member and of its
      successor, which is the first live one on the list. */
  lemma Successor(v: View, i: nat)
    requires Safe(v) && i < |v.members| && v.members[i].isPrimary
    ensures
      var v' := Bury(v, i);
      && |v'.members| == |v.members| && v'.members[i] == v.members[i].(isDead := true, isPrimary := false)
      && (v'.primary.Nothing? <==> forall j :: 0 <= j < |v.members| && j != i ==> v.members[j].isDead)
      && (v'.primary.Just? ==>
           exists k: nat :: k < |v.members| && IsSuccessor(v, i, k)
             && v'.primary.value == v.members[k].(isPrimary := true) == v'.members[k]
             && forall j :: 0 <= j < |v.members| && j != i && j != k ==> v'.members[j] == v.members[j])
  {
    var ms := v.members[i := v.members[i].(isDead := true, isPrimary := false)];
    var k := FirstAlive(ms);
    if k < |ms| {
      forall j | 0 <= j < k
        ensures j == i || v.members[j].isDead
      {
        assert ms[j].isDead;
      }
      assert IsSuccessor(v, i, k);
    } else {
      forall j | 0 <= j < |ms| && j != i
        ensures v.members[j].isDead
      {
        assert ms[j].isDead;
      }
    }
  }

  /** Everybody before k on the list is dead now, and k is alive. */
  predicate IsSuccessor(v: View, i: nat, k: nat) {
    k < |v.members| && k != i && !v.members[k].isDead
    && forall j :: 0 <= j < k ==> j == i || v.members[j].isDead
  }

  /** Who is written to when i dies, and what: after a failover the successor k and
      everybody behind it, else everybody alive. Each letter gives the receiver's role,
      the primary, and i as dead. */
  lemma DeathLetters(v: View, i: nat, j: nat)
    requires Safe(v) && i < |v.members| && j < |v.members| && !v.members[i].isDead
    ensures
      var v', mail := Bury(v, i), BuryMail(v, i, j);
      && (forall k: nat :: v.members[i].isPrimary && IsSuccessor(v, i, k) ==> (mail != [] <==> j >= k))
      && (!v.members[i].isPrimary ==> (mail != [] <==> j != i && !v.members[j].isDead))
      && (v'.primary.Nothing? ==> mail == [])
      && (mail != [] ==>
           && v'.primary.Just? && v.members[j].addr == v'.members[j].addr
           && mail == [StatusLetter(v'.members[j].isPrimary, v'.primary.value.addr, Just(v.members[i].addr))])
  {
    BurySafe(v, i);
    FirstAliveBound(v.members, i);
    if v.members[i].isPrimary {
      var ms := v.members[i := v.members[i].(isDead := true, isPrimary := false)];
      SameFirstAlive(ms, Bury(v, i).members);
      forall k: nat | IsSuccessor(v, i, k)
        ensures k == FirstAlive(ms)
      {
        FirstAliveBound(ms, k);
      }
    }
  }

  /** Who is written to when i is heard from: nobody if it was alive; else i itself is
      told its role and the primary, and the primary, if it is another, of i. */
  lemma RevivalLetters(v: View, i: nat, j: nat)
    requires Safe(v) && i < |v.members| && j < |v.members|
    ensures
      var v', mail := Beat(v, i), BeatMail(v, i, j);
      && (!v.members[i].isDead ==> v' == v && mail == [])
      && (v.members[i].isDead ==>
           && v'.primary.Just?
           && (j == i ==> mail == [StatusLetter(v'.members[i].isPrimary, v'.primary.value.addr, Nothing)])
           && (j != i ==> mail == if v.members[j].isPrimary then [NewSecondaryLetter(v.members[i].addr)] else []))
  {
    BeatSafe(v, i);
    if v.primary.Just? {
      var k := PrimaryOf(v);
      assert v.members[k].addr == v.primary.value.addr;
    }
  }

  // ---- Runs of one group ----

  datatype Change = Heard(i: nat) | Expired(i: nat)

  ghost predicate CanChange(v: View, c: Change) {
    c.i < |v.members| && (c.Expired? ==> !v.members[c.i].isDead)
  }

  function After(v: View, c: Change): View
    requires c.i < |v.members|
  {
    if c.Heard? then Beat(v, c.i) else Bury(v, c.i)
  }

  ghost predicate IsHistory(vs: seq<View>, cs: seq<Change>) {
    && |vs| == |cs| + 1
    && forall n :: 0 <= n < |cs| ==> CanChange(vs[n], cs[n]) && vs[n + 1] == After(vs[n], cs[n])
  }

  /** A group nobody has been heard from yet */
  ghost predicate Fresh(v: View) {
    && v.primary.Nothing? && Distinct(v.members)
    && forall i :: 0 <= i < |v.members| ==> v.members[i].isDead && !v.members[i].isPrimary
  }

  /** Every state of every history is safe; a recorded primary is replaced only by
      the step that declares it dead. */
  lemma {:induction false} HistorySafe(vs: seq<View>, cs: seq<Change>, n: nat)
    requires IsHistory(vs, cs) && Fresh(vs[0]) && n <= |cs|
    ensures Safe(vs[n])
    ensures n > 0 && vs[n].primary != vs[n - 1].primary && vs[n - 1].primary.Just? ==>
            cs[n - 1].Expired? && vs[n - 1].primary == Just(vs[n - 1].members[cs[n - 1].i])
  {
    if n > 0 {
      HistorySafe(vs, cs, n - 1);
      var v, c := vs[n - 1], cs[n - 1];
      assert CanChange(vs[n - 1], cs[n - 1]) && vs[n - 1 + 1] == After(vs[n - 1], cs[n - 1]);
      if c.Heard? {
        BeatSafe(v, c.i);
      } else {
        BurySafe(v, c.i);
      }
    }
  }

  // ---- Sweeps ----

  function BuryAll(v: View, order: seq<nat>): (v': View)
    requires forall n :: 0 <= n < |order| ==> order[n] < |v.members|
    ensures |v'.members| == |v.members|
  {
    if order == [] then v else Bury(BuryAll(v, order[..|order| - 1]), order[|order| - 1])
  }

  function Fallen(ms: seq<ServerInfo>, dead: set<nat>): (r: seq<ServerInfo>)
    ensures |r| == |ms|
    ensures forall i :: 0 <= i < |ms| ==>
      r[i] == if i in dead then ms[i].(isDead := true, isPrimary := false) else ms[i]
  {
    seq(|ms|, i requires 0 <= i < |ms| => if i in dead then ms[i].(isDead := true, isPrimary := false) else ms[i])
  }

  /** The outcome of a sweep in which the members dead expire, said without an
      order: the primary stays if it survives, else the first survivor takes over. */
  ghost function Swept(v: View, dead: set<nat>): View
    requires Safe(v)
  {
    var ms := Fallen(v.members, dead);
    if v.primary.Nothing? || PrimaryOf(v) !in dead then View(ms, v.primary)
    else if FirstAlive(ms) == |ms| then View(ms, Nothing)
    else
      var k := FirstAlive(ms);
      var m' := ms[k].(isPrimary := true);
      View(ms[k := m'], Just(m'))
  }

  predicate Unique(order: seq<nat>) {
    forall i, j :: 0 <= i < j < |order| ==> order[i] != order[j]
  }

  function Elements(order: seq<nat>): set<nat> {
    set i | i in order
  }

  /** What a swept view looks like, member by member */
  lemma SweptMembers(v: View, dead: set<nat>)
    requires Safe(v)
    ensures
      var ms, v' := Fallen(v.members, dead), Swept(v, dead);
      && |v'.members| == |v.members|
      && (forall i :: 0 <= i < |ms| ==> v'.members[i].addr == v.members[i].addr)
      && (forall i :: 0 <= i < |ms| ==> v'.members[i].isDead == ms[i].isDead)
      && FirstAlive(v'.members) == FirstAlive(ms)
      && Safe(v')
  {
    var ms, v' := Fallen(v.members, dead), Swept(v, dead);
    SameFirstAlive(ms, v'.members);
    if v.primary.Just? && PrimaryOf(v) !in dead {
      FirstAliveBound(ms, PrimaryOf(v));
      assert ms[PrimaryOf(v)] == v.primary.value;
    } else if FirstAlive(ms) < |ms| {
      FirstAliveBound(v.members, FirstAlive(ms));
      assert v'.members[FirstAlive(ms)] == v'.primary.value;
    }
  }

  lemma SameFirstAlive(ms: seq<ServerInfo>, ns: seq<ServerInfo>)
    requires |ms| == |ns| && forall i :: 0 <= i < |ms| ==> ms[i].isDead == ns[i].isDead
    ensures FirstAlive(ms) == FirstAlive(ns)
  {
    if FirstAlive(ms) < |ms| {
      FirstAliveBound(ns, FirstAlive(ms));
    }
    if FirstAlive(ns) < |ns| {
      FirstAliveBound(ms, FirstAlive(ns));
    }
  }

  /** One more death leads from the outcome of one set to that of the next. */
  lemma SweptStep(v: View, dead: set<nat>, i: nat)
    requires Safe(v) && i < |v.members| && !v.members[i].isDead && i !in dead
    ensures |Swept(v, dead).members| == |v.members|
    ensures Bury(Swept(v, dead), i) == Swept(v, dead + {i})
  {
    FirstAliveBound(v.members, i);
    SweptMembers(v, dead);
    if PrimaryOf(v) !in dead {
      PrimaryStillThere(v, dead, i);
    } else {
      FirstAliveBound(Fallen(v.members, dead), i);
      if FirstAlive(Fallen(v.members, dead)) == i {
        SuccessorFalls(v, dead, i);
      } else {
        SuccessorStays(v, dead, i);
      }
    }
  }

  lemma PrimaryStillThere(v: View, dead: set<nat>, i: nat)
    requires Safe(v) && i < |v.members| && !v.members[i].isDead && i !in dead
    requires v.primary.Just? && PrimaryOf(v) !in dead
    ensures Bury(Swept(v, dead), i) == Swept(v, dead + {i})
  {
    var ms, ns := Fallen(v.members, dead), Fallen(v.members, dead + {i});
    assert ms[i := ms[i].(isDead := true, isPrimary := false)] == ns;
  }

  /** The member promoted in place of the primary expires itself. */
  lemma SuccessorFalls(v: View, dead: set<nat>, i: nat)
    requires Safe(v) && i < |v.members| && !v.members[i].isDead && i !in dead
    requires v.primary.Just? && PrimaryOf(v) in dead && FirstAlive(Fallen(v.members, dead)) == i
    ensures Bury(Swept(v, dead), i) == Swept(v, dead + {i})
  {
    var ms, ns := Fallen(v.members, dead), Fallen(v.members, dead + {i});
    var us := Swept(v, dead).members;
    assert us == ms[i := ms[i].(isPrimary := true)];
    assert us[i := us[i].(isDead := true, isPrimary := false)] == ns;
  }

  /** A member other than the promoted one expires. */
  lemma SuccessorStays(v: View, dead: set<nat>, i: nat)
    requires Safe(v) && i < |v.members| && !v.members[i].isDead && i !in dead
    requires v.primary.Just? && PrimaryOf(v) in dead && FirstAlive(Fallen(v.members, dead)) < i
    ensures Bury(Swept(v, dead), i) == Swept(v, dead + {i})
  {
    var ms, ns := Fallen(v.members, dead), Fallen(v.members, dead + {i});
    var k := FirstAlive(ms);
    FirstAliveBound(ns, k);
    if FirstAlive(ns) < k {
      FirstAliveBound(ms, FirstAlive(ns));
    }
    assert FirstAlive(ns) == k && ns[k] == ms[k];
    var us := Swept(v, dead).members;
    assert us == ms[k := ms[k].(isPrimary := true)] && !us[i].isPrimary;
    assert us[i := us[i].(isDead := true, isPrimary := false)] == ns[k := ns[k].(isPrimary := true)];
  }

  /** A sweep ends in the same record for every order in which the expired members
      come up, even when the primary and its would-be successors are among them. */
  lemma {:induction false} SweepConfluence(v: View, order: seq<nat>)
    requires Safe(v) && Unique(order)
    requires forall n :: 0 <= n < |order| ==> order[n] < |v.members| && !v.members[order[n]].isDead
    ensures BuryAll(v, order) == Swept(v, Elements(order))
    ensures Safe(BuryAll(v, order))
  {
    if order == [] {
      assert Fallen(v.members, {}) == v.members;
    } else {
      var rest, i := order[..|order| - 1], order[|order| - 1];
      assert order == rest + [i];
      SweepConfluence(v, rest);
      assert Elements(order) == Elements(rest) + {i};
      SweptStep(v, Elements(rest), i);
    }
    SweptMembers(v, Elements(order));
  }

  /** Two orders of the same members cannot be told apart afterwards. */
  lemma OrderDoesNotMatter(v: View, order1: seq<nat>, order2: seq<nat>)
    requires Safe(v) && Unique(order1) && Unique(order2) && Elements(order1) == Elements(order2)
    requires forall n :: 0 <= n < |order1| ==> order1[n] < |v.members| && !v.members[order1[n]].isDead
    ensures forall n :: 0 <= n < |order2| ==> order2[n] < |v.members|
    ensures BuryAll(v, order1) == BuryAll(v, order2)
  {
    forall n | 0 <= n < |order2|
      ensures order2[n] in order1
    {
      assert order2[n] in Elements(order2);
    }
    SweepConfluence(v, order1);
    SweepConfluence(v, order2);
  }
}

/** How the master hands out servers to frontends: one position per group, moved
    past each server handed out. */
module RoundRobin {
  import opened Optional
  import opened Status

  function Next(i: nat, n: nat): (r: nat)
    requires i < n
    ensures r == if i + 1 == n then 0 else i + 1
  {
    (i + 1) % n
  }

  /** First live server within the next steps positions from i on, or |ms| */
  function Scan(ms: seq<ServerInfo>, i: nat, steps: nat): (r: nat)
    requires i < |ms|
    ensures r <= |ms|
    ensures r < |ms| ==> !ms[r].isDead
    decreases steps
  {
    if steps == 0 then |ms| else if !ms[i].isDead then i else Scan(ms, Next(i, |ms|), steps - 1)
  }

  /** The server handed out when the position is start, or |ms| for none */
  function Choice(ms: seq<ServerInfo>, start: nat): (r: nat)
    requires start < |ms|
    ensures r <= |ms|
    ensures r < |ms| ==> !ms[r].isDead
  {
    Scan(ms, start, |ms|)
  }

  /** k requests in a row; a request that finds no server leaves the position. */
  function Choices(ms: seq<ServerInfo>, start: nat, k: nat): (r: seq<nat>)
    requires start < |ms|
    ensures |r| == k
    decreases k
  {
    if k == 0 then []
    else
      var c := Choice(ms, start);
      [c] + Choices(ms, if c == |ms| then start else Next(c, |ms|), k - 1)
  }

  // ---- The ring ----

  /** The position e steps after start */
  function Ring(start: nat, e: nat, n: nat): (r: nat)
    requires start < n && e <= n
    ensures r < n
  {
    if start + e < n then start + e else start + e - n
  }

  lemma RingNext(start: nat, e: nat, n: nat)
    requires start < n && e < n
    ensures Next(Ring(start, e, n), n) == Ring(start, e + 1, n)
  {
  }

  /** A scan that finds something within some steps finds the same with more. */
  lemma {:induction false} ScanMore(ms: seq<ServerInfo>, start: nat, e: nat, steps: nat)
    requires start < |ms| && e + steps < |ms|
    ensures
      var short, long := Scan(ms, Ring(start, e, |ms|), steps), Scan(ms, Ring(start, e, |ms|), steps + 1);
      long == if short < |ms| then short
              else if !ms[Ring(start, e + steps, |ms|)].isDead then Ring(start, e + steps, |ms|)
              else |ms|
    decreases steps
  {
    RingNext(start, e, |ms|);
    if steps > 0 && ms[Ring(start, e, |ms|)].isDead {
      ScanMore(ms, start, e + 1, steps - 1);
    } else {
      assert Scan(ms, Ring(start, e, |ms|), 1) == if !ms[Ring(start, e, |ms|)].isDead then Ring(start, e, |ms|)
          else |ms|;
    }
  }

  /** Starting at a dead server is the same as starting behind it. */
  lemma SkipDead(ms: seq<ServerInfo>, s: nat)
    requires s < |ms| && ms[s].isDead
    ensures Choice(ms, s) == Choice(ms, Next(s, |ms|))
  {
    var n := |ms|;
    var t := Next(s, n);
    assert Ring(t, n - 1, n) == s && Ring(t, 0, n) == t;
    ScanMore(ms, t, 0, n - 1);
  }

  /** The live servers met on the way round from offset e on */
  function LiveFrom(ms: seq<ServerInfo>, start: nat, e: nat): (r: seq<nat>)
    requires start < |ms| && e <= |ms|
    ensures forall i :: 0 <= i < |r| ==> r[i] < |ms|
    decreases |ms| - e
  {
    if e == |ms| then []
    else if ms[Ring(start, e, |ms|)].isDead then LiveFrom(ms, start, e + 1)
    else [Ring(start, e, |ms|)] + LiveFrom(ms, start, e + 1)
  }

  /** Requests hand out exactly the servers met on the way round. */
  lemma {:induction false} ChoicesGoRound(ms: seq<ServerInfo>, start: nat, e: nat, k: nat)
    requires start < |ms| && e <= |ms| && k <= |LiveFrom(ms, start, e)|
    ensures Choices(ms, Ring(start, e, |ms|), k) == LiveFrom(ms, start, e)[..k]
    decreases |ms| - e
  {
    var n := |ms|;
    if k > 0 {
      var s := Ring(start, e, n);
      RingNext(start, e, n);
      if ms[s].isDead {
        SkipDead(ms, s);
        ChoicesGoRound(ms, start, e + 1, k);
        assert Choices(ms, Next(s, n), k)[0] == LiveFrom(ms, start, e + 1)[0] < n;
      } else {
        assert Choice(ms, s) == s;
        ChoicesGoRound(ms, start, e + 1, k - 1);
      }
    }
  }

  lemma {:induction false} LiveFromMembers(ms: seq<ServerInfo>, start: nat, e: nat)
    requires start < |ms| && e <= |ms|
    ensures forall r :: r in LiveFrom(ms, start, e) <==> exists d ::
      e <= d < |ms| && r == Ring(start, d, |ms|) && !ms[r].isDead
    ensures forall i, j :: 0 <= i < j < |LiveFrom(ms, start, e)| ==>
      LiveFrom(ms, start, e)[i] != LiveFrom(ms, start, e)[j]
    decreases |ms| - e
  {
    if e < |ms| {
      LiveFromMembers(ms, start, e + 1);
      var rest, r := LiveFrom(ms, start, e + 1), Ring(start, e, |ms|);
      assert r !in rest;
    }
  }

  function LiveSet(ms: seq<ServerInfo>): set<nat> {
    set i | 0 <= i < |ms| && !ms[i].isDead
  }

  lemma {:induction false} SizeOfDistinct(s: seq<nat>, t: set<nat>)
    requires forall i, j :: 0 <= i < j < |s| ==> s[i] != s[j]
    requires forall x :: x in s <==> x in t
    ensures |s| == |t|
  {
    if s == [] {
      assert t == {};
    } else {
      var rest, x := s[..|s| - 1], s[|s| - 1];
      assert s == rest + [x];
      assert x in s && x !in rest;
      SizeOfDistinct(rest, t - {x});
    }
  }

  /** Fairness: with k servers alive, any k requests in a row, from any position,
      hand out each of them exactly once. */
  lemma Fairness(ms: seq<ServerInfo>, start: nat)
    requires start < |ms|
    ensures
      var picks := Choices(ms, start, |LiveSet(ms)|);
      && (forall i, j :: 0 <= i < j < |picks| ==> picks[i] != picks[j])
      && (forall r :: r in picks <==> r in LiveSet(ms))
  {
    var n, live := |ms|, LiveFrom(ms, start, 0);
    LiveFromMembers(ms, start, 0);
    forall r
      ensures r in live <==> r in LiveSet(ms)
    {
      if r in LiveSet(ms) {
        var d := if r >= start then r - start else r + n - start;
        assert Ring(start, d, n) == r;
      }
    }
    SizeOfDistinct(live, LiveSet(ms));
    ChoicesGoRound(ms, start, 0, |live|);
    assert Ring(start, 0, n) == start && live[..|live|] == live;
  }

  /** No server is handed out exactly when none is alive. */
  lemma NoneOnlyIfNoneAlive(ms: seq<ServerInfo>, start: nat)
    requires start < |ms|
    ensures Choice(ms, start) == |ms| <==> LiveSet(ms) == {}
  {
    Fairness(ms, start);
    if LiveSet(ms) == {} {
      assert Choice(ms, start) !in LiveSet(ms);
    } else {
      var r :| r in LiveSet(ms);
      assert Choices(ms, start, |LiveSet(ms)|)[0] in LiveSet(ms);
    }
  }

  /** nextServerRoundRobin and the request loop */
  class Dispatcher {
    var nextServerRoundRobin: map<int, nat>

    constructor (groups: set<int>)
      ensures nextServerRoundRobin == map g | g in groups :: 0
    {
      nextServerRoundRobin := map g | g in groups :: 0;
    }

    /** GET_SERVER for group g; none stands for the -ERR NO_SERVERS_ALIVE reply. */
    method GetServer(g: int, ms: seq<ServerInfo>) returns (found: Maybe<Addr>)
      requires g in nextServerRoundRobin && nextServerRoundRobin[g] < |ms|
      modifies this
      ensures
        var start := old(nextServerRoundRobin)[g];
        var c := Choice(ms, start);
        && (found.Nothing? <==> c == |ms|)
        && (found.Just? ==> found.value == ms[c].addr)
        && nextServerRoundRobin == old(nextServerRoundRobin)[g := if c == |ms| then start else Next(c, |ms|)]
    {
      var start := nextServerRoundRobin[g];
      var current := start;
      ghost var steps := |ms|;
      while true
        invariant current < |ms| && 0 < steps <= |ms| && current == Ring(start, |ms| - steps, |ms|)
        invariant Choice(ms, start) == Scan(ms, current, steps)
        invariant nextServerRoundRobin == old(nextServerRoundRobin)
        decreases steps
      {
        if !ms[current].isDead {
          found := Just(ms[current].addr);
          nextServerRoundRobin := nextServerRoundRobin[g := (current + 1) % |ms|];
          return;
        }
        RingNext(start, |ms| - steps, |ms|);
        current := (current + 1) % |ms|;
        steps := steps - 1;
        if current == start {
          break;
        }
      }
      assert steps == 0;
      assert nextServerRoundRobin == nextServerRoundRobin[g := start];
      found := Nothing;
    }
  }
}

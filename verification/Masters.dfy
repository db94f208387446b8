/** The master process: its globals, updated in place by heartbeats and sweeps. */
module Masters {
  import opened Optional
  import opened Text
  import opened Numbers
  import opened Status
  import opened Election

  /** Milliseconds without a heartbeat after which a server is dead (constants.h) */
  const DEAD_THRESHOLD: int := 300

  // ---- Heartbeat keys ----

  /** What a key of last_heartbeat stands for */
  datatype Key = Key(group: int, addr: Addr) | BadKey

  /** The key as text */
  function KeyText(k: Key): string
    requires k.Key?
  {
    IntText(k.group) + ";" + AddrText(k.addr)
  }

  function ParseKey(key: string): Key {
    var semi, colon := IndexOf(key, ';'), IndexOf(key, ':');
    match (Stoi(Substr(key, 0, semi)), Stoi(key[colon + 1..]))
    case (Number(g), Number(port)) => Key(g, Addr(Substr(key, semi + 1, colon - semi - 1), port))
    case _ => BadKey
  }

  lemma KeyPositions(head: string, ip: string, tail: string)
    requires ';' !in head && ':' !in head && PlainIp(ip)
    ensures
      var key := head + ";" + (ip + ":" + tail);
      && IndexOf(key, ';') == |head| && IndexOf(key, ':') == |head| + 1 + |ip|
      && key[..|head|] == head && key[|head| + 1..|head| + 1 + |ip|] == ip && key[|head| + 2 + |ip|..] == tail
  {
    var key := head + ";" + (ip + ":" + tail);
    assert key[..|head|] == head && key[|head|] == ';';
    IndexIs(key, ';', |head|);
    var c := |head| + 1 + |ip|;
    assert key[..c] == head + ";" + ip && key[c] == ':';
    assert ':' !in ";";
    IndexIs(key, ':', c);
  }

  lemma ParseKeyFrom(key: string, head: string, ip: string, tail: string, g: int, port: int)
    requires
      var semi, colon := IndexOf(key, ';'), IndexOf(key, ':');
      && 0 <= semi < |key| && Substr(key, 0, semi) == head && Substr(key, semi + 1, colon - semi - 1) == ip
      && key[colon + 1..] == tail
    requires Stoi(head) == Number(g) && Stoi(tail) == Number(port)
    ensures ParseKey(key) == Key(g, Addr(ip, port))
  {
  }

  lemma SubstrIs(s: string, pos: nat, len: nat, t: string)
    requires pos + len <= |s| && s[pos..pos + len] == t
    ensures Substr(s, pos, len) == t
  {
  }

  lemma ParseKeyParts(head: string, ip: string, tail: string, g: int, port: int)
    requires ';' !in head && ':' !in head && PlainIp(ip)
    requires Stoi(head) == Number(g) && Stoi(tail) == Number(port)
    ensures ParseKey(head + ";" + (ip + ":" + tail)) == Key(g, Addr(ip, port))
  {
    KeyPositions(head, ip, tail);
    var key := head + ";" + (ip + ":" + tail);
    SubstrIs(key, 0, |head|, head);
    SubstrIs(key, |head| + 1, |ip|, ip);
    ParseKeyFrom(key, head, ip, tail, g, port);
  }

  /** checkHeartbeats reads the key that recvHeartbeat wrote. */
  lemma KeyRoundTrip(k: Key)
    requires k.Key? && 0 <= k.group <= INT_MAX && PlainAddr(k.addr)
    ensures ParseKey(KeyText(k)) == k
  {
    var head, tail := NatText(k.group), NatText(k.addr.port);
    NatTextPlain(k.group);
    assert head + "" == head && tail + "" == tail;
    StoiRoundTrip(k.group, "");
    StoiRoundTrip(k.addr.port, "");
    ParseKeyParts(head, k.addr.ip, tail, k.group, k.addr.port);
  }

  // ---- Mail ----

  /** Datagrams sent to each server, oldest first */
  type Outbox = map<(int, Addr), seq<Letter>>

  function Letters(box: Outbox, g: int, a: Addr): seq<Letter> {
    if (g, a) in box then box[(g, a)] else []
  }

  /** Each member j of group g got mail[j] and nobody else got anything. */
  ghost predicate Mailed(before: Outbox, after: Outbox, g: int, ms: seq<ServerInfo>, mail: seq<seq<Letter>>)
    requires |mail| == |ms|
  {
    && (forall j :: 0 <= j < |ms| ==> Letters(after, g, ms[j].addr) == Letters(before, g, ms[j].addr) + mail[j])
    && (forall h, a :: h != g ==> Letters(after, h, a) == Letters(before, h, a))
  }

  function BeatMails(v: View, i: nat): seq<seq<Letter>>
    requires i < |v.members|
  {
    seq(|v.members|, j requires 0 <= j < |v.members| => BeatMail(v, i, j))
  }

  function Post(box: Outbox, g: int, a: Addr, letter: Letter): Outbox {
    box[(g, a) := Letters(box, g, a) + [letter]]
  }

  /** The two calls of recvHeartbeat write exactly the mail of a revival. */
  lemma BeatMailed(box: Outbox, g: int, v: View, i: nat)
    requires Safe(v) && i < |v.members| && v.members[i].isDead
    ensures
      var v' := Beat(v, i);
      && v'.primary.Just?
      && var m, p := v'.members[i], v'.primary.value.addr;
         var box1 := Post(box, g, m.addr, StatusLetter(m.isPrimary, p, Nothing));
         var box2 := if m.isPrimary then box1 else Post(box1, g, p, NewSecondaryLetter(m.addr));
         Mailed(box, box2, g, v.members, BeatMails(v, i))
  {
    BeatSafe(v, i);
    var k := PrimaryOf(Beat(v, i));
    assert v.members[k].addr == Beat(v, i).primary.value.addr;
  }

  function BuryMails(v: View, i: nat): seq<seq<Letter>>
    requires i < |v.members|
  {
    seq(|v.members|, j requires 0 <= j < |v.members| => BuryMail(v, i, j))
  }

  /** What a whole sweep sends to member j */
  function SweepMail(v: View, order: seq<nat>, j: nat): seq<Letter>
    requires forall n :: 0 <= n < |order| ==> order[n] < |v.members|
    requires j < |v.members|
  {
    if order == [] then []
    else
      var rest := order[..|order| - 1];
      SweepMail(v, rest, j) + BuryMail(BuryAll(v, rest), order[|order| - 1], j)
  }

  /** The first n members have got their mail. */
  ghost predicate PartlyMailed(before: Outbox, after: Outbox, g: int, ms: seq<ServerInfo>, mail: seq<seq<Letter>>,
      n: nat)
    requires |mail| == |ms|
  {
    && (forall j :: 0 <= j < |ms| ==>
         Letters(after, g, ms[j].addr)
           == if j < n then Letters(before, g, ms[j].addr) + mail[j] else Letters(before, g, ms[j].addr))
    && (forall h, a :: h != g ==> Letters(after, h, a) == Letters(before, h, a))
  }

  lemma PostNext(before: Outbox, after: Outbox, g: int, ms: seq<ServerInfo>, mail: seq<seq<Letter>>, n: nat,
      letter: Letter)
    requires |mail| == |ms| && n < |ms| && Distinct(ms)
    requires PartlyMailed(before, after, g, ms, mail, n)
    ensures mail[n] == [letter] ==> PartlyMailed(before, Post(after, g, ms[n].addr, letter), g, ms, mail, n + 1)
    ensures mail[n] == [] ==> PartlyMailed(before, after, g, ms, mail, n + 1)
  {
  }

  function PortIndex(ms: seq<ServerInfo>, port: int): (i: nat)
    ensures i <= |ms|
    ensures i < |ms| ==> ms[i].addr.port == port
    ensures forall j :: 0 <= j < i ==> ms[j].addr.port != port
  {
    if ms == [] || ms[0].addr.port == port then 0 else 1 + PortIndex(ms[1..], port)
  }

  ghost predicate DistinctPorts(ms: seq<ServerInfo>) {
    forall i, j :: 0 <= i < j < |ms| ==> ms[i].addr.port != ms[j].addr.port
  }

  // ---- The master's globals ----

  type Servers = map<int, seq<ServerInfo>>
  type Primaries = map<int, ServerInfo>
  type Beats = map<Key, int>

  function ViewIn(servers: Servers, primaries: Primaries, g: int): View
    requires g in servers
  {
    View(servers[g], if g in primaries then Just(primaries[g]) else Nothing)
  }

  /** Plain addresses, ports distinct within a group */
  ghost predicate Configured(servers: Servers) {
    forall g :: g in servers ==> ConfiguredGroup(g, servers[g])
  }

  ghost predicate ConfiguredGroup(g: int, ms: seq<ServerInfo>) {
    0 <= g <= INT_MAX && DistinctPorts(ms) && forall i :: 0 <= i < |ms| ==> PlainAddr(ms[i].addr)
  }

  ghost predicate AllSafe(servers: Servers, primaries: Primaries) {
    && (forall g {:trigger ViewIn(servers, primaries, g)} :: g in servers ==> Safe(ViewIn(servers, primaries, g)))
    && primaries.Keys <= servers.Keys
  }

  /** A server is alive exactly when it has a heartbeat entry, and every entry is
      that of a server. */
  ghost predicate Beating(servers: Servers, beats: Beats) {
    && (forall g, i :: g in servers && 0 <= i < |servers[g]| ==>
         (!servers[g][i].isDead <==> Key(g, servers[g][i].addr) in beats))
    && (forall key :: key in beats ==> OfServer(servers, key))
  }

  ghost predicate OfServer(servers: Servers, key: Key) {
    exists g, i :: g in servers && 0 <= i < |servers[g]| && key == Key(g, servers[g][i].addr)
  }

  /** A change that sets the liveness of member i of group g alone */
  ghost predicate OneLiveness(servers: Servers, servers': Servers, g: int, i: nat, alive: bool) {
    && servers'.Keys == servers.Keys && g in servers
    && (forall h :: h in servers && h != g ==> servers'[h] == servers[h])
    && |servers'[g]| == |servers[g]| && i < |servers[g]|
    && (forall j :: 0 <= j < |servers[g]| ==> servers'[g][j].addr == servers[g][j].addr)
    && (forall j :: 0 <= j < |servers[g]| ==> servers'[g][j].isDead == if j == i then !alive else servers[g][j].isDead)
  }

  /** What one revival or death leaves behind: the record of group g has become v',
      members got their mail, the other groups are as they were. */
  ghost predicate Changed(servers: Servers, primaries: Primaries, box: Outbox, servers': Servers,
                          primaries': Primaries, box': Outbox, g: int, i: nat, v': View, alive: bool,
                          mail: seq<seq<Letter>>)
  {
    && OneLiveness(servers, servers', g, i, alive)
    && AllSafe(servers', primaries')
    && ViewIn(servers', primaries', g) == v'
    && (forall h :: h in servers && h != g ==> ViewIn(servers', primaries', h) == ViewIn(servers, primaries, h))
    && |mail| == |servers[g]| && Mailed(box, box', g, servers[g], mail)
  }

  lemma ChangedOnlyIn(servers: Servers, primaries: Primaries, servers': Servers, primaries': Primaries, g: int,
      v': View)
    requires AllSafe(servers, primaries) && g in servers && Safe(v')
    requires servers' == servers[g := v'.members]
    requires primaries' == if v'.primary.Just? then primaries[g := v'.primary.value] else primaries - {g}
    ensures AllSafe(servers', primaries') && ViewIn(servers', primaries', g) == v'
    ensures forall h :: h in servers && h != g ==> ViewIn(servers', primaries', h) == ViewIn(servers, primaries, h)
  {
    forall h | h in servers'
      ensures Safe(ViewIn(servers', primaries', h))
    {
      if h != g {
        assert ViewIn(servers', primaries', h) == ViewIn(servers, primaries, h);
      }
    }
  }

  /** A heartbeat of a server that is alive already changes nothing. */
  lemma AlreadyAlive(servers: Servers, primaries: Primaries, box: Outbox, g: int, i: nat)
    requires AllSafe(servers, primaries) && g in servers && i < |servers[g]| && !servers[g][i].isDead
    ensures
      var v := ViewIn(servers, primaries, g);
      Changed(servers, primaries, box, servers, primaries, box, g, i, Beat(v, i), true, BeatMails(v, i))
  {
  }

  lemma BeatingAfter(servers: Servers, beats: Beats, servers': Servers, beats': Beats, g: int, i: nat, alive: bool)
    requires Configured(servers) && Beating(servers, beats) && OneLiveness(servers, servers', g, i, alive)
    requires
      var key := Key(g, servers[g][i].addr);
      forall k :: k in beats' <==> if k == key then alive else k in beats
    ensures Beating(servers', beats') && Configured(servers')
  {
    forall h, j | h in servers' && 0 <= j < |servers'[h]|
      ensures !servers'[h][j].isDead <==> Key(h, servers'[h][j].addr) in beats'
    {
      assert servers'[h][j].addr == servers[h][j].addr;
      assert ConfiguredGroup(h, servers[h]);
    }
    forall key | key in beats'
      ensures OfServer(servers', key)
    {
      var h, j :| h in servers && 0 <= j < |servers[h]| && key == Key(h, servers[h][j].addr) by {
        if key !in beats {
          assert key == Key(g, servers[g][i].addr);
        }
        assert key in beats ==> OfServer(servers, key);
      }
      assert servers'[h][j].addr == servers[h][j].addr;
    }
    forall h | h in servers'
      ensures ConfiguredGroup(h, servers'[h])
    {
      assert ConfiguredGroup(h, servers[h]);
      assert forall j :: 0 <= j < |servers[h]| ==> servers'[h][j].addr == servers[h][j].addr;
    }
  }

  class Master {
    var servers: Servers
    var primaryServers: Primaries
    var lastHeartbeat: Beats
    var sent: Outbox

    function ViewOf(g: int): View
      requires g in servers
      reads this
    {
      ViewIn(servers, primaryServers, g)
    }

    ghost predicate Valid()
      reads this
    {
      && Configured(servers)
      && AllSafe(servers, primaryServers)
      && Beating(servers, lastHeartbeat)
    }

    /** A master that has read its configuration */
    constructor (config: map<int, seq<Addr>>)
      requires forall g :: g in config ==> 0 <= g <= INT_MAX
      requires forall g, i :: g in config && 0 <= i < |config[g]| ==> PlainAddr(config[g][i])
      requires forall g, i, j :: g in config && 0 <= i < j < |config[g]| ==> config[g][i].port != config[g][j].port
      ensures Valid() && servers.Keys == config.Keys && lastHeartbeat == map[] && sent == map[]
      ensures forall g :: g in config ==> Fresh(ViewOf(g)) && |servers[g]| == |config[g]|
      ensures forall g, i :: g in config && 0 <= i < |config[g]| ==> servers[g][i].addr == config[g][i]
    {
      servers := map g | g in config ::
        seq(|config[g]|, i requires 0 <= i < |config[g]| => ServerInfo(config[g][i], false, true));
      primaryServers, lastHeartbeat, sent := map[], map[], map[];
      new;
      forall g | g in servers
        ensures Safe(ViewOf(g)) && ConfiguredGroup(g, servers[g])
      {
        FreshSafe(ViewOf(g));
      }
    }

    static lemma FreshSafe(v: View)
      requires Fresh(v)
      ensures Safe(v)
    {
      if AnyAlive(v.members) {
        assert false;
      }
    }

    method SendTo(g: int, a: Addr, letter: Letter)
      modifies this`sent
      ensures sent == Post(old(sent), g, a, letter)
    {
      sent := sent[(g, a) := Letters(sent, g, a) + [letter]];
    }

    /** SendTo as the n-th letter of a loop over the group */
    method SendNext(g: int, a: Addr, letter: Letter, ghost before: Outbox, ghost ms: seq<ServerInfo>,
        ghost mail: seq<seq<Letter>>, ghost n: nat)
      requires |mail| == |ms| && n < |ms| && Distinct(ms)
      requires PartlyMailed(before, sent, g, ms, mail, n)
      requires a == ms[n].addr && mail[n] == [letter]
      modifies this`sent
      ensures PartlyMailed(before, sent, g, ms, mail, n + 1)
    {
      PostNext(before, sent, g, ms, mail, n, letter);
      SendTo(g, a, letter);
    }

    /** Member i of group g is heard from again: the part of recvHeartbeat for a
        server that was dead */
    method Revive(g: int, i: nat)
      requires AllSafe(servers, primaryServers)
      requires g in servers && i < |servers[g]| && servers[g][i].isDead
      modifies this`servers, this`primaryServers, this`sent
      ensures
        var v := old(ViewOf(g));
        Changed(old(servers), old(primaryServers), old(sent), servers, primaryServers, sent, g, i, Beat(v, i), true,
            BeatMails(v, i))
    {
      ghost var v := ViewOf(g);
      BeatSafe(v, i);
      BeatMailed(sent, g, v, i);
      var info := servers[g][i].(isDead := false);
      if g !in primaryServers {
        info := info.(isPrimary := true);
        primaryServers := primaryServers[g := info];
      }
      servers := servers[g := servers[g][i := info]];
      SendTo(g, info.addr, StatusLetter(info.isPrimary, primaryServers[g].addr, Nothing));
      if !info.isPrimary {
        SendTo(g, primaryServers[g].addr, NewSecondaryLetter(info.addr));
      }
      ChangedOnlyIn(old(servers), old(primaryServers), servers, primaryServers, g, Beat(v, i));
    }

    /** The loop of recvHeartbeat over the sender's group; from is the entry of the
        sender as it was. */
    method Hear(g: int, port: int) returns (from: ServerInfo)
      requires Configured(servers) && AllSafe(servers, primaryServers)
      requires g in servers && PortIndex(servers[g], port) < |servers[g]|
      modifies this`servers, this`primaryServers, this`sent
      ensures
        var v, i := old(ViewOf(g)), PortIndex(old(servers[g]), port);
        && from == v.members[i]
        && Changed(old(servers), old(primaryServers), old(sent), servers, primaryServers, sent, g, i, Beat(v, i),
            true, BeatMails(v, i))
    {
      ghost var v := ViewOf(g);
      ghost var hit := PortIndex(servers[g], port);
      assert ConfiguredGroup(g, servers[g]);
      var n := |servers[g]|;
      from := servers[g][0];
      AlreadyAliveIf(servers, primaryServers, sent, g, hit);
      for i := 0 to n
        invariant g in servers && |servers[g]| == n
        invariant forall j :: 0 <= j < n ==> servers[g][j].addr == v.members[j].addr
        invariant i <= hit ==> servers == old(servers) && primaryServers == old(primaryServers) && sent == old(sent)
        invariant i > hit ==> from == v.members[hit]
        invariant i > hit ==>
          Changed(old(servers), old(primaryServers), old(sent), servers, primaryServers, sent, g, hit, Beat(v, hit),
              true, BeatMails(v, hit))
      {
        if servers[g][i].addr.port == port {
          assert i == hit;
          from := servers[g][i];
          if servers[g][i].isDead {
            Revive(g, i);
          }
        }
      }
    }

    static lemma AlreadyAliveIf(servers: Servers, primaries: Primaries, box: Outbox, g: int, i: nat)
      requires AllSafe(servers, primaries) && g in servers && i < |servers[g]|
      ensures
        var v := ViewIn(servers, primaries, g);
        !servers[g][i].isDead ==> Changed(servers, primaries, box, servers, primaries, box, g, i, Beat(v, i), true,
            BeatMails(v, i))
    {
      if !servers[g][i].isDead {
        AlreadyAlive(servers, primaries, box, g, i);
      }
    }

    /** A heartbeat from the server of group g that listens on port */
    method RecvHeartbeat(g: int, port: int, now: int)
      requires Valid() && g in servers && PortIndex(servers[g], port) < |servers[g]|
      modifies this
      ensures Valid()
      ensures
        var v, i := old(ViewOf(g)), PortIndex(old(servers[g]), port);
        && Changed(old(servers), old(primaryServers), old(sent), servers, primaryServers, sent, g, i, Beat(v, i),
            true, BeatMails(v, i))
        && lastHeartbeat == old(lastHeartbeat)[Key(g, v.members[i].addr) := now]
      ensures Ticked(old(Now()), Heartbeat(g, port, now), Now())
    {
      ghost var hit := PortIndex(servers[g], port);
      var from := Hear(g, port);
      lastHeartbeat := lastHeartbeat[Key(g, from.addr) := now];
      BeatingAfter(old(servers), old(lastHeartbeat), servers, lastHeartbeat, g, hit, true);
    }

    // ---- Sweeps ----

    /** The loop of checkHeartbeats that marks the expired server */
    method MarkServerDead(g: int, a: Addr, ghost i: nat) returns (deadInfo: ServerInfo)
      requires g in servers && Safe(ViewOf(g)) && i < |servers[g]| && servers[g][i].addr == a
      modifies this`servers, this`primaryServers
      ensures servers ==
        old(servers)[g := old(servers[g])[i := old(servers[g][i]).(isDead := true, isPrimary := false)]]
      ensures primaryServers == if old(servers[g][i].isPrimary) then old(primaryServers) - {g} else old(primaryServers)
      ensures deadInfo == old(servers[g][i]).(isDead := true)
    {
      ghost var ms := servers[g];
      var n := |servers[g]|;
      deadInfo := servers[g][0];
      for j := 0 to n
        invariant g in servers && |servers[g]| == n
        invariant j <= i ==> servers == old(servers) && primaryServers == old(primaryServers)
        invariant j > i ==> servers == old(servers)[g := ms[i := ms[i].(isDead := true, isPrimary := false)]]
        invariant j > i ==> primaryServers == if ms[i].isPrimary then old(primaryServers) - {g} else old(primaryServers)
        invariant j > i ==> deadInfo == ms[i].(isDead := true)
      {
        if servers[g][j].addr == a {
          assert j == i;
          servers := servers[g := servers[g][j := servers[g][j].(isDead := true)]];
          deadInfo := servers[g][j];
          if servers[g][j].isPrimary {
            primaryServers := primaryServers - {g};
          }
          servers := servers[g := servers[g][j := servers[g][j].(isPrimary := false)]];
          assert servers[g] == ms[i := ms[i].(isDead := true, isPrimary := false)];
        }
      }
    }

    /** After the death of the primary: the first live server takes over, everybody
        behind it is told. */
    method PromoteFirstAlive(g: int, deadInfo: ServerInfo, ghost mail: seq<seq<Letter>>)
      requires g in servers && Distinct(servers[g]) && |mail| == |servers[g]|
      requires mail == FailoverMail(servers[g], deadInfo.addr)
      modifies this`servers, this`primaryServers, this`sent
      ensures
        var ms := old(servers[g]);
        var k := FirstAlive(ms);
        if k == |ms| then servers == old(servers) && primaryServers == old(primaryServers)
        else
          && servers == old(servers)[g := ms[k := ms[k].(isPrimary := true)]]
          && primaryServers == old(primaryServers)[g := ms[k].(isPrimary := true)]
      ensures PartlyMailed(old(sent), sent, g, old(servers[g]), mail, |mail|)
    {
      ghost var ms := servers[g];
      ghost var k := FirstAlive(ms);
      var primaryAssigned := false;
      var n := |servers[g]|;
      for j := 0 to n
        invariant primaryAssigned <==> j > k
        invariant g in servers && |servers[g]| == n
        invariant !primaryAssigned ==> servers == old(servers) && primaryServers == old(primaryServers)
        invariant primaryAssigned ==> k < n
        invariant primaryAssigned ==> servers == old(servers)[g := ms[k := ms[k].(isPrimary := true)]]
        invariant primaryAssigned ==> primaryServers == old(primaryServers)[g := ms[k].(isPrimary := true)]
        invariant PartlyMailed(old(sent), sent, g, ms, mail, j)
      {
        if primaryAssigned {
          var letter := StatusLetter(false, primaryServers[g].addr, Just(deadInfo.addr));
          SendNext(g, servers[g][j].addr, letter, old(sent), ms, mail, j);
        } else if !servers[g][j].isDead {
          FirstAliveBound(ms, j);
          var successor := servers[g][j].(isPrimary := true);
          servers := servers[g := servers[g][j := successor]];
          primaryServers := primaryServers[g := successor];
          primaryAssigned := true;
          var letter := StatusLetter(true, successor.addr, Just(deadInfo.addr));
          SendNext(g, successor.addr, letter, old(sent), ms, mail, j);
        } else {
          PostNext(old(sent), sent, g, ms, mail, j, StatusLetter(false, deadInfo.addr, Nothing));
        }
      }
    }

    /** What a failover in the group ms sends to each member */
    static ghost function FailoverMail(ms: seq<ServerInfo>, dead: Addr): (mail: seq<seq<Letter>>)
      ensures |mail| == |ms|
      ensures forall j :: 0 <= j < |ms| ==>
        var k := FirstAlive(ms);
        mail[j] == if j < k then [] else [StatusLetter(j == k, ms[k].addr, Just(dead))]
    {
      seq(|ms|, j requires 0 <= j < |ms| =>
        if j < FirstAlive(ms) then [] else [StatusLetter(j == FirstAlive(ms), ms[FirstAlive(ms)].addr, Just(dead))])
    }

    static lemma PromotionOutcome(v: View, i: nat)
      requires Safe(v) && i < |v.members| && v.members[i].isPrimary
      ensures
        var ms := v.members[i := v.members[i].(isDead := true, isPrimary := false)];
        var k := FirstAlive(ms);
        && Distinct(ms)
        && BuryMails(v, i) == FailoverMail(ms, v.members[i].addr)
        && Bury(v, i) == if k == |ms| then View(ms, Nothing)
                         else View(ms[k := ms[k].(isPrimary := true)], Just(ms[k].(isPrimary := true)))
    {
      var ms := v.members[i := v.members[i].(isDead := true, isPrimary := false)];
      SameFirstAlive(ms, Bury(v, i).members);
    }

    /** After the death of a secondary: everybody alive is told. */
    method TellAlive(g: int, deadInfo: ServerInfo, ghost v: View, ghost i: nat)
      requires Safe(v) && i < |v.members| && !v.members[i].isPrimary && !v.members[i].isDead
      requires g in servers && servers[g] == Bury(v, i).members
      requires g in primaryServers && Just(primaryServers[g]) == Bury(v, i).primary
      requires deadInfo.addr == v.members[i].addr
      modifies this`sent
      ensures Mailed(old(sent), sent, g, v.members, BuryMails(v, i))
    {
      ghost var mail := BuryMails(v, i);
      for j := 0 to |servers[g]|
        invariant PartlyMailed(old(sent), sent, g, v.members, mail, j)
      {
        var letter := StatusLetter(servers[g][j].isPrimary, primaryServers[g].addr, Just(deadInfo.addr));
        if !servers[g][j].isDead {
          SendNext(g, servers[g][j].addr, letter, old(sent), v.members, mail, j);
        } else {
          PostNext(old(sent), sent, g, v.members, mail, j, letter);
        }
      }
    }

    /** One expired server: the body of the sweep */
    method DeclareDead(g: int, a: Addr, ghost i: nat)
      requires AllSafe(servers, primaryServers)
      requires g in servers && i < |servers[g]| && servers[g][i].addr == a && !servers[g][i].isDead
      modifies this`servers, this`primaryServers, this`sent
      ensures
        var v := old(ViewOf(g));
        Changed(old(servers), old(primaryServers), old(sent), servers, primaryServers, sent, g, i, Bury(v, i), false,
            BuryMails(v, i))
    {
      ghost var v := ViewOf(g);
      BurySafe(v, i);
      FirstAliveBound(v.members, i);
      var deadInfo := MarkServerDead(g, a, i);
      if deadInfo.isPrimary {
        PromotionOutcome(v, i);
        PromoteFirstAlive(g, deadInfo, BuryMails(v, i));
      } else {
        TellAlive(g, deadInfo, v, i);
      }
      BuryEffect(old(servers), old(primaryServers), old(sent), servers, primaryServers, sent, g, i);
    }

    static lemma BuryEffect(servers: Servers, primaries: Primaries, box: Outbox, servers': Servers,
        primaries': Primaries, box': Outbox, g: int, i: nat)
      requires AllSafe(servers, primaries) && g in servers && i < |servers[g]| && !servers[g][i].isDead
      requires
        var v := ViewIn(servers, primaries, g);
        && servers' == servers[g := Bury(v, i).members]
        && primaries' == (if Bury(v, i).primary.Just? then primaries[g := Bury(v, i).primary.value]
            else primaries - {g})
        && Mailed(box, box', g, v.members, BuryMails(v, i))
      ensures
        var v := ViewIn(servers, primaries, g);
        Changed(servers, primaries, box, servers', primaries', box', g, i, Bury(v, i), false, BuryMails(v, i))
    {
      var v := ViewIn(servers, primaries, g);
      BurySafe(v, i);
      BuryKeepsAddresses(v, i);
      ChangedOnlyIn(servers, primaries, servers', primaries', g, Bury(v, i));
      OneDies(servers, servers', g, i, Bury(v, i).members);
    }

    static lemma OneDies(servers: Servers, servers': Servers, g: int, i: nat, ms: seq<ServerInfo>)
      requires g in servers && i < |servers[g]| == |ms| && servers' == servers[g := ms] && ms[i].isDead
      requires forall j :: 0 <= j < |ms| ==> ms[j].addr == servers[g][j].addr
      requires forall j :: 0 <= j < |ms| && j != i ==> ms[j].isDead == servers[g][j].isDead
      ensures OneLiveness(servers, servers', g, i, false)
    {
    }

    // ---- One pass of checkHeartbeats ----

    /** The keys are visited in an order the program does not control; orders[g] is
        the order in which the members of group g turned out to be dead. */
    method CheckHeartbeats(now: int) returns (ghost orders: map<int, seq<nat>>)
      requires Valid()
      modifies this
      ensures Valid() && SweepResult(old(Now()), Now(), orders, now)
      ensures Ticked(old(Now()), Pass(now), Now())
    {
      ghost var start := Now();
      orders := map g | g in servers :: [];
      var pending := lastHeartbeat.Keys;
      SweepStart(start, orders, now);
      while pending != {}
        invariant Valid() && Sweeping(start, Now(), orders, pending, now)
        decreases pending
      {
        var key :| key in pending;
        if now - lastHeartbeat[key] > DEAD_THRESHOLD {
          orders := BuryExpired(key, start, orders, pending, now);
        } else {
          StillBeating(start, Now(), orders, pending, now, key);
        }
        pending := pending - {key};
      }
      SweepDone(start, Now(), orders, now);
    }

    ghost function Now(): Globals
      reads this
    {
      Globals(servers, primaryServers, lastHeartbeat, sent)
    }

    /** The sweep comes upon an expired key, reads its text back and buries the
        server. */
    method BuryExpired(key: Key, ghost start: Globals, ghost orders: map<int, seq<nat>>, ghost pending: set<Key>,
        ghost now: int)
      returns (ghost orders': map<int, seq<nat>>)
      requires Valid() && ValidGlobals(start) && Sweeping(start, Now(), orders, pending, now)
      requires key in pending && TooOld(start.beats, key, now)
      modifies this
      ensures Valid() && Sweeping(start, Now(), orders', pending - {key}, now)
    {
      ghost var before := Now();
      ghost var g, i := ServerOf(servers, key);
      assert !servers[g][i].isDead;
      RemoveServer(key, g, i);
      OneMoreDead(start, before, Now(), orders, pending, now, g, i);
      orders' := orders[g := orders[g] + [i]];
    }

    method RemoveServer(key: Key, ghost g: int, ghost i: nat)
      requires Valid() && g in servers && i < |servers[g]| && key == Key(g, servers[g][i].addr) && !servers[g][i].isDead
      requires 0 <= g <= INT_MAX && PlainAddr(key.addr)
      modifies this
      ensures Valid() && lastHeartbeat == old(lastHeartbeat) - {key}
      ensures
        var v := old(ViewOf(g));
        Changed(old(servers), old(primaryServers), old(sent), servers, primaryServers, sent, g, i, Bury(v, i), false,
            BuryMails(v, i))
    {
      ghost var before := Now();
      var parsed := ReadBack(key);
      DeclareDead(parsed.group, parsed.addr, i);
      lastHeartbeat := lastHeartbeat - {key};
      ValidWithout(before, Now(), g, i, key);
    }

    static lemma ValidWithout(before: Globals, after: Globals, g: int, i: nat, key: Key)
      requires ValidGlobals(before) && OneLiveness(before.servers, after.servers, g, i, false)
      requires AllSafe(after.servers, after.primaries) && key == Key(g, before.servers[g][i].addr)
      requires after.beats == before.beats - {key}
      ensures ValidGlobals(after)
    {
      BeatingAfter(before.servers, before.beats, after.servers, after.beats, g, i, false);
    }

    /** The key goes through its text. */
    method ReadBack(key: Key) returns (parsed: Key)
      requires key.Key? && 0 <= key.group <= INT_MAX && PlainAddr(key.addr)
      ensures parsed == key
    {
      KeyRoundTrip(key);
      parsed := ParseKey(KeyText(key));
    }
  }

  lemma ServerOf(servers: Servers, key: Key) returns (g: int, i: nat)
    requires Configured(servers) && OfServer(servers, key)
    ensures g in servers && i < |servers[g]| && key == Key(g, servers[g][i].addr)
    ensures 0 <= g <= INT_MAX && PlainAddr(key.addr)
  {
    g, i :| g in servers && 0 <= i < |servers[g]| && key == Key(g, servers[g][i].addr);
    assert ConfiguredGroup(g, servers[g]);
  }

  // ---- How far a pass has come ----

  datatype Globals = Globals(servers: Servers, primaries: Primaries, beats: Beats, box: Outbox)

  predicate TooOld(beats: Beats, key: Key, now: int) {
    key in beats && now - beats[key] > DEAD_THRESHOLD
  }

  /** The members of group g whose last heartbeat is too old */
  ghost function ExpiredIn(servers: Servers, beats: Beats, g: int, now: int): set<nat>
    requires g in servers
  {
    set i: nat | i < |servers[g]| && TooOld(beats, Key(g, servers[g][i].addr), now)
  }

  ghost predicate ValidGlobals(w: Globals) {
    Configured(w.servers) && AllSafe(w.servers, w.primaries) && Beating(w.servers, w.beats)
  }

  /** orders[g] are the members of g buried so far; keys not in pending have been
      dealt with. */
  ghost predicate Sweeping(start: Globals, now0: Globals, orders: map<int, seq<nat>>, pending: set<Key>, now: int) {
    && KeysSoFar(start.beats, now0.beats, pending, now)
    && now0.servers.Keys == start.servers.Keys == orders.Keys
    && GroupsSoFar(start, now0, orders, pending, now)
  }

  ghost predicate KeysSoFar(start: Beats, now0: Beats, pending: set<Key>, now: int) {
    && pending <= now0.Keys
    && (forall k :: k in now0 <==> k in start && (TooOld(start, k, now) ==> k in pending))
    && (forall k :: k in now0 ==> now0[k] == start[k])
  }

  ghost predicate GroupsSoFar(start: Globals, now0: Globals, orders: map<int, seq<nat>>, pending: set<Key>, now: int)
    requires now0.servers.Keys == start.servers.Keys == orders.Keys
  {
    forall g {:trigger SweptSoFar(start, now0, g, orders[g], pending, now)} :: g in start.servers ==>
      SweptSoFar(start, now0, g, orders[g], pending, now)
  }

  ghost predicate SweptSoFar(start: Globals, now0: Globals, g: int, order: seq<nat>, pending: set<Key>, now: int)
    requires g in start.servers && g in now0.servers
  {
    && OrderSoFar(start.servers[g], start.beats, g, order, pending, now)
    && OutcomeSoFar(ViewIn(start.servers, start.primaries, g), start.box, ViewIn(now0.servers, now0.primaries, g),
        now0.box, g, order)
  }

  predicate Passed(beats: Beats, key: Key, pending: set<Key>, now: int) {
    TooOld(beats, key, now) && key !in pending
  }

  /** order lists the members that are dead and dealt with. */
  ghost predicate OrderSoFar(ms: seq<ServerInfo>, beats: Beats, g: int, order: seq<nat>, pending: set<Key>, now: int) {
    && Unique(order)
    && (forall n :: 0 <= n < |order| ==> order[n] < |ms| && !ms[order[n]].isDead)
    && (forall i: nat :: i in order <==> i < |ms| && Passed(beats, Key(g, ms[i].addr), pending, now))
  }

  /** Burying the members in this order led from v0 to v and sent what is new. */
  ghost predicate OutcomeSoFar(v0: View, box0: Outbox, v: View, box: Outbox, g: int, order: seq<nat>) {
    && (forall n :: 0 <= n < |order| ==> order[n] < |v0.members|)
    && v == BuryAll(v0, order)
    && (forall j :: 0 <= j < |v0.members| ==> v.members[j].addr == v0.members[j].addr)
    && (forall j :: 0 <= j < |v0.members| ==>
         Letters(box, g, v0.members[j].addr) == Letters(box0, g, v0.members[j].addr) + SweepMail(v0, order, j))
  }

  lemma StillBeating(start: Globals, now0: Globals, orders: map<int, seq<nat>>, pending: set<Key>, now: int, key: Key)
    requires Sweeping(start, now0, orders, pending, now) && key in pending && !TooOld(start.beats, key, now)
    ensures Sweeping(start, now0, orders, pending - {key}, now)
  {
    forall g | g in start.servers
      ensures SweptSoFar(start, now0, g, orders[g], pending - {key}, now)
    {
      assert SweptSoFar(start, now0, g, orders[g], pending, now);
    }
  }

  lemma OneMoreDead(start: Globals, before: Globals, after: Globals, orders: map<int, seq<nat>>, pending: set<Key>,
      now: int, g: int, i: nat)
    requires ValidGlobals(start)
    requires Sweeping(start, before, orders, pending, now)
    requires g in before.servers && i < |before.servers[g]|
    requires
      var v := ViewIn(before.servers, before.primaries, g);
      Changed(before.servers, before.primaries, before.box, after.servers, after.primaries, after.box, g, i,
              Bury(v, i), false, BuryMails(v, i))
    requires
      var key := Key(g, before.servers[g][i].addr);
      key in pending && TooOld(start.beats, key, now) && after.beats == before.beats - {key}
    ensures
      Sweeping(start, after, orders[g := orders[g] + [i]], pending - {Key(g, before.servers[g][i].addr)}, now)
  {
    var key := Key(g, before.servers[g][i].addr);
    assert KeysSoFar(start.beats, after.beats, pending - {key}, now);
    OneMoreInGroups(start, before, after, orders, pending, now, g, i);
  }

  lemma OneMoreInGroups(start: Globals, before: Globals, after: Globals, orders: map<int, seq<nat>>,
      pending: set<Key>, now: int, g: int, i: nat)
    requires ValidGlobals(start) && before.servers.Keys == start.servers.Keys == orders.Keys == after.servers.Keys
    requires GroupsSoFar(start, before, orders, pending, now)
    requires g in before.servers && i < |before.servers[g]|
    requires
      var v := ViewIn(before.servers, before.primaries, g);
      && ViewIn(after.servers, after.primaries, g) == Bury(v, i)
      && (forall h :: h in before.servers && h != g ==>
           ViewIn(after.servers, after.primaries, h) == ViewIn(before.servers, before.primaries, h))
      && Mailed(before.box, after.box, g, before.servers[g], BuryMails(v, i))
    requires
      var key := Key(g, before.servers[g][i].addr);
      key in pending && TooOld(start.beats, key, now)
    ensures
      GroupsSoFar(start, after, orders[g := orders[g] + [i]], pending - {Key(g, before.servers[g][i].addr)}, now)
  {
    var key := Key(g, before.servers[g][i].addr);
    var orders' := orders[g := orders[g] + [i]];
    forall h | h in start.servers
      ensures SweptSoFar(start, after, h, orders'[h], pending - {key}, now)
    {
      assert SweptSoFar(start, before, h, orders[h], pending, now);
      if h == g {
        OneMoreDeadIn(start, before, after, orders[g], pending, now, g, i);
      } else {
        OtherGroup(start, before, after, orders[h], pending, now, h, key);
      }
    }
  }

  lemma OtherGroup(start: Globals, before: Globals, after: Globals, order: seq<nat>, pending: set<Key>, now: int,
      h: int, key: Key)
    requires h in start.servers && h in before.servers && h in after.servers && key.Key? && key.group != h
    requires SweptSoFar(start, before, h, order, pending, now)
    requires ViewIn(after.servers, after.primaries, h) == ViewIn(before.servers, before.primaries, h)
    requires forall a :: Letters(after.box, h, a) == Letters(before.box, h, a)
    ensures SweptSoFar(start, after, h, order, pending - {key}, now)
  {
  }

  lemma OneMoreDeadIn(start: Globals, before: Globals, after: Globals, order: seq<nat>, pending: set<Key>, now: int,
      g: int, i: nat)
    requires ValidGlobals(start) && g in start.servers && g in before.servers && g in after.servers
    requires i < |before.servers[g]|
    requires SweptSoFar(start, before, g, order, pending, now)
    requires
      var v := ViewIn(before.servers, before.primaries, g);
      && ViewIn(after.servers, after.primaries, g) == Bury(v, i)
      && Mailed(before.box, after.box, g, v.members, BuryMails(v, i))
    requires
      var key := Key(g, before.servers[g][i].addr);
      key in pending && TooOld(start.beats, key, now)
    ensures SweptSoFar(start, after, g, order + [i], pending - {Key(g, before.servers[g][i].addr)}, now)
  {
    var v0, v := ViewIn(start.servers, start.primaries, g), ViewIn(before.servers, before.primaries, g);
    assert |v.members| == |v0.members| && v.members[i].addr == v0.members[i].addr;
    assert ConfiguredGroup(g, start.servers[g]);
    assert !start.servers[g][i].isDead;
    OrderGrows(start.servers[g], start.beats, g, order, pending, now, i);
    OutcomeGrows(v0, start.box, v, before.box, after.box, g, order, i);
  }

  lemma OrderGrows(ms: seq<ServerInfo>, beats: Beats, g: int, order: seq<nat>, pending: set<Key>, now: int, i: nat)
    requires OrderSoFar(ms, beats, g, order, pending, now) && i < |ms| && !ms[i].isDead && DistinctPorts(ms)
    requires Key(g, ms[i].addr) in pending && TooOld(beats, Key(g, ms[i].addr), now)
    ensures OrderSoFar(ms, beats, g, order + [i], pending - {Key(g, ms[i].addr)}, now)
  {
  }

  lemma OutcomeGrows(v0: View, box0: Outbox, v: View, box: Outbox, box': Outbox, g: int, order: seq<nat>, i: nat)
    requires OutcomeSoFar(v0, box0, v, box, g, order) && i < |v.members| == |v0.members|
    requires Mailed(box, box', g, v.members, BuryMails(v, i))
    ensures OutcomeSoFar(v0, box0, Bury(v, i), box', g, order + [i])
  {
    var order' := order + [i];
    assert order'[..|order'| - 1] == order;
    BuryKeepsAddresses(v, i);
    forall j | 0 <= j < |v0.members|
      ensures Letters(box', g, v0.members[j].addr) == Letters(box0, g, v0.members[j].addr) + SweepMail(v0, order', j)
    {
      LettersGrow(v0, box0, v, box, box', g, order, i, j);
    }
  }

  lemma SweepMailSnoc(v0: View, order: seq<nat>, v: View, i: nat, j: nat)
    requires (forall n :: 0 <= n < |order| ==> order[n] < |v0.members|) && v == BuryAll(v0, order)
    requires i < |v.members| == |v0.members| && j < |v0.members|
    ensures forall n :: 0 <= n < |order + [i]| ==> (order + [i])[n] < |v0.members|
    ensures SweepMail(v0, order + [i], j) == SweepMail(v0, order, j) + BuryMail(v, i, j)
  {
    var order' := order + [i];
    assert order'[..|order'| - 1] == order;
  }

  lemma LettersGrow(v0: View, box0: Outbox, v: View, box: Outbox, box': Outbox, g: int, order: seq<nat>, i: nat, j: nat)
    requires OutcomeSoFar(v0, box0, v, box, g, order) && i < |v.members| == |v0.members| && j < |v0.members|
    requires Mailed(box, box', g, v.members, BuryMails(v, i))
    ensures forall n :: 0 <= n < |order + [i]| ==> (order + [i])[n] < |v0.members|
    ensures Letters(box', g, v0.members[j].addr) == Letters(box0, g, v0.members[j].addr) + SweepMail(v0, order + [i], j)
  {
    var order' := order + [i];
    SweepMailSnoc(v0, order, v, i, j);
    assert v.members[j].addr == v0.members[j].addr;
    var was, news, last := Letters(box0, g, v0.members[j].addr), SweepMail(v0, order, j), BuryMail(v, i, j);
    assert Letters(box', g, v0.members[j].addr) == was + news + last;
    Regroup(was, news, last);
  }

  lemma BuryKeepsAddresses(v: View, i: nat)
    requires i < |v.members|
    ensures |Bury(v, i).members| == |v.members|
    ensures forall j :: 0 <= j < |v.members| ==> Bury(v, i).members[j].addr == v.members[j].addr
  {
  }

  lemma SweepStart(start: Globals, orders: map<int, seq<nat>>, now: int)
    requires ValidGlobals(start) && orders.Keys == start.servers.Keys
    requires forall g :: g in orders ==> orders[g] == []
    ensures Sweeping(start, start, orders, start.beats.Keys, now)
  {
    forall g | g in start.servers
      ensures SweptSoFar(start, start, g, orders[g], start.beats.Keys, now)
    {
    }
  }

  /** What one pass does: exactly the expired heartbeats are gone; each group's
      record is the one Swept gives for its expired members, whatever the order in
      which they came up; each member got the letters of that order. */
  ghost predicate SweepResult(start: Globals, after: Globals, orders: map<int, seq<nat>>, now: int)
  {
    && ValidGlobals(start)
    && after.servers.Keys == start.servers.Keys == orders.Keys
    && (forall k :: k in after.beats <==> k in start.beats && !TooOld(start.beats, k, now))
    && (forall k :: k in after.beats ==> after.beats[k] == start.beats[k])
    && (forall g {:trigger GroupSwept(start, after, g, orders[g], now)} :: g in start.servers ==>
        GroupSwept(start, after, g, orders[g], now))
  }

  ghost predicate GroupSwept(start: Globals, after: Globals, g: int, order: seq<nat>, now: int)
    requires ValidGlobals(start) && g in start.servers && g in after.servers
  {
    var v0, ms := ViewIn(start.servers, start.primaries, g), start.servers[g];
    && ViewIn(after.servers, after.primaries, g) == Swept(v0, ExpiredIn(start.servers, start.beats, g, now))
    && Elements(order) == ExpiredIn(start.servers, start.beats, g, now)
    && Unique(order) && (forall n :: 0 <= n < |order| ==> order[n] < |ms|)
    && (forall j :: 0 <= j < |ms| ==>
         Letters(after.box, g, ms[j].addr) == Letters(start.box, g, ms[j].addr) + SweepMail(v0, order, j))
  }

  lemma AllBuried(ms: seq<ServerInfo>, start: Globals, g: int, order: seq<nat>, now: int)
    requires g in start.servers && ms == start.servers[g] && OrderSoFar(ms, start.beats, g, order, {}, now)
    ensures Elements(order) == ExpiredIn(start.servers, start.beats, g, now)
  {
  }

  lemma GroupDone(start: Globals, after: Globals, g: int, order: seq<nat>, now: int)
    requires ValidGlobals(start) && g in start.servers && g in after.servers
    requires SweptSoFar(start, after, g, order, {}, now)
    ensures GroupSwept(start, after, g, order, now)
  {
    SweepConfluence(ViewIn(start.servers, start.primaries, g), order);
    AllBuried(start.servers[g], start, g, order, now);
  }

  lemma SweepDone(start: Globals, after: Globals, orders: map<int, seq<nat>>, now: int)
    requires ValidGlobals(start) && Sweeping(start, after, orders, {}, now)
    ensures SweepResult(start, after, orders, now)
  {
    forall g | g in start.servers
      ensures GroupSwept(start, after, g, orders[g], now)
    {
      assert SweptSoFar(start, after, g, orders[g], {}, now);
      GroupDone(start, after, g, orders[g], now);
    }
  }

  // ---- Who is held alive ----

  /** After a pass exactly the servers heard from in the last 300 milliseconds are
      alive and have a heartbeat entry, the one they had. */
  lemma PassKeepsTheYoung(start: Globals, after: Globals, orders: map<int, seq<nat>>, now: int, g: int, i: nat)
    requires SweepResult(start, after, orders, now) && g in start.servers && i < |start.servers[g]|
    ensures
      var key := Key(g, start.servers[g][i].addr);
      && g in after.servers && |after.servers[g]| == |start.servers[g]| && after.servers[g][i].addr == key.addr
      && (!after.servers[g][i].isDead <==> key in start.beats && now - start.beats[key] <= 300)
      && (key in after.beats <==> key in start.beats && now - start.beats[key] <= 300)
      && (key in after.beats ==> after.beats[key] == start.beats[key])
  {
    assert GroupSwept(start, after, g, orders[g], now);
    var v, dead := ViewIn(start.servers, start.primaries, g), ExpiredIn(start.servers, start.beats, g, now);
    SweptMembers(v, dead);
    assert ViewIn(after.servers, after.primaries, g) == Swept(v, dead);
  }

  /** One call into the master: a heartbeat from a port of a group, or a pass */
  datatype Tick = Heartbeat(group: int, port: int, at: int) | Pass(at: int)

  ghost predicate Ticked(w: Globals, t: Tick, w': Globals) {
    && ValidGlobals(w')
    && match t
       case Heartbeat(g, port, at) =>
         && g in w.servers && PortIndex(w.servers[g], port) < |w.servers[g]|
         && var v, i := ViewIn(w.servers, w.primaries, g), PortIndex(w.servers[g], port);
            && Changed(w.servers, w.primaries, w.box, w'.servers, w'.primaries, w'.box, g, i, Beat(v, i), true,
                BeatMails(v, i))
            && w'.beats == w.beats[Key(g, v.members[i].addr) := at]
       case Pass(at) => exists orders :: SweepResult(w, w', orders, at)
  }

  /** Heartbeats and passes one after the other, from a master that has heard nobody */
  ghost predicate IsWatch(ws: seq<Globals>, ts: seq<Tick>) {
    && |ws| == |ts| + 1
    && ValidGlobals(ws[0]) && ws[0].beats == map[]
    && forall n :: 0 <= n < |ts| ==> Ticked(ws[n], ts[n], ws[n + 1])
  }

  /** Tick k is the last heartbeat of the server among the first n ticks. */
  ghost predicate LastHeard(ts: seq<Tick>, n: nat, g: int, port: int, k: int) {
    && n <= |ts| && 0 <= k < n && ts[k].Heartbeat? && ts[k].group == g && ts[k].port == port
    && forall j :: k < j < n ==> !(ts[j].Heartbeat? && ts[j].group == g && ts[j].port == port)
  }

  /** It is, and no pass since then came more than 300 milliseconds after it. */
  ghost predicate HeardInTime(ts: seq<Tick>, n: nat, g: int, port: int, k: int) {
    LastHeard(ts, n, g, port, k) && forall j :: k < j < n && ts[j].Pass? ==> ts[j].at - ts[k].at <= 300
  }

  /** Member i of group g is the server on that port, and alive exactly if it was heard
      in time. */
  ghost predicate Watched(w: Globals, ts: seq<Tick>, n: nat, g: int, i: nat, a: Addr) {
    && ValidGlobals(w) && g in w.servers && i < |w.servers[g]| && w.servers[g][i].addr == a
    && (!w.servers[g][i].isDead <==> exists k :: HeardInTime(ts, n, g, a.port, k))
    && (Key(g, a) in w.beats <==> !w.servers[g][i].isDead)
    && (forall k :: HeardInTime(ts, n, g, a.port, k) ==> Key(g, a) in w.beats && w.beats[Key(g, a)] == ts[k].at)
  }

  lemma PortIsIndex(ms: seq<ServerInfo>, i: nat)
    requires DistinctPorts(ms) && i < |ms|
    ensures PortIndex(ms, ms[i].addr.port) == i
  {
    var k := PortIndex(ms, ms[i].addr.port);
    assert k <= i;
  }

  lemma HeardNow(ts: seq<Tick>, n: nat, next: nat, g: int, port: int)
    requires n < |ts| && ts[n].Heartbeat? && ts[n].group == g && ts[n].port == port && next == n + 1
    ensures HeardInTime(ts, next, g, port, n)
    ensures forall k :: HeardInTime(ts, next, g, port, k) ==> k == n
  {
  }

  lemma HeardOther(ts: seq<Tick>, n: nat, g: int, port: int)
    requires n < |ts| && ts[n].Heartbeat? && !(ts[n].group == g && ts[n].port == port)
    ensures forall k :: HeardInTime(ts, n + 1, g, port, k) <==> HeardInTime(ts, n, g, port, k)
  {
    forall k | HeardInTime(ts, n + 1, g, port, k)
      ensures HeardInTime(ts, n, g, port, k)
    {
      assert k != n;
    }
  }

  lemma HeardThroughPass(ts: seq<Tick>, n: nat, g: int, port: int)
    requires n < |ts| && ts[n].Pass?
    ensures forall k :: HeardInTime(ts, n + 1, g, port, k) <==>
      HeardInTime(ts, n, g, port, k) && ts[n].at - ts[k].at <= 300
  {
    forall k | HeardInTime(ts, n + 1, g, port, k)
      ensures HeardInTime(ts, n, g, port, k) && ts[n].at - ts[k].at <= 300
    {
      assert k != n;
    }
  }

  lemma OwnHeartbeat(w: Globals, t: Tick, w': Globals, ts: seq<Tick>, n: nat, g: int, i: nat, a: Addr)
    requires n < |ts| && ts[n] == t && t.Heartbeat? && t.group == g && t.port == a.port
    requires ValidGlobals(w) && Ticked(w, t, w') && Watched(w, ts, n, g, i, a)
    ensures Watched(w', ts, n + 1, g, i, a)
  {
    assert ConfiguredGroup(g, w.servers[g]);
    PortIsIndex(w.servers[g], i);
    HeardNow(ts, n, n + 1, g, a.port);
  }

  /** A heartbeat of one server leaves the others as they were. */
  lemma OtherEntry(w: Globals, t: Tick, w': Globals, g: int, i: nat)
    requires Ticked(w, t, w') && t.Heartbeat? && g in w.servers && i < |w.servers[g]|
    requires !(t.group == g && t.port == w.servers[g][i].addr.port)
    ensures g in w'.servers && |w'.servers[g]| == |w.servers[g]|
    ensures w'.servers[g][i].isDead == w.servers[g][i].isDead && w'.servers[g][i].addr == w.servers[g][i].addr
    ensures
      var key := Key(g, w.servers[g][i].addr);
      (key in w'.beats <==> key in w.beats) && (key in w.beats ==> w'.beats[key] == w.beats[key])
  {
    var hit := PortIndex(w.servers[t.group], t.port);
    assert Key(t.group, w.servers[t.group][hit].addr) != Key(g, w.servers[g][i].addr);
  }

  lemma OthersHeartbeat(w: Globals, t: Tick, w': Globals, ts: seq<Tick>, n: nat, g: int, i: nat, a: Addr)
    requires n < |ts| && ts[n] == t && t.Heartbeat? && !(t.group == g && t.port == a.port)
    requires Ticked(w, t, w') && Watched(w, ts, n, g, i, a)
    ensures Watched(w', ts, n + 1, g, i, a)
  {
    OtherEntry(w, t, w', g, i);
    HeardOther(ts, n, g, a.port);
    WatchedStill(w, w', ts, n, n + 1, g, i, a);
  }

  lemma WatchedStill(w: Globals, w': Globals, ts: seq<Tick>, n: nat, next: nat, g: int, i: nat, a: Addr)
    requires Watched(w, ts, n, g, i, a) && ValidGlobals(w')
    requires forall k :: HeardInTime(ts, next, g, a.port, k) <==> HeardInTime(ts, n, g, a.port, k)
    requires g in w'.servers && i < |w'.servers[g]| && w'.servers[g][i].addr == a
    requires w'.servers[g][i].isDead == w.servers[g][i].isDead
    requires (Key(g, a) in w'.beats <==> Key(g, a) in w.beats)
    requires Key(g, a) in w.beats ==> w'.beats[Key(g, a)] == w.beats[Key(g, a)]
    ensures Watched(w', ts, next, g, i, a)
  {
  }

  lemma PassWatched(w: Globals, t: Tick, w': Globals, ts: seq<Tick>, n: nat, g: int, i: nat, a: Addr)
    requires n < |ts| && ts[n] == t && t.Pass? && Ticked(w, t, w') && Watched(w, ts, n, g, i, a)
    ensures Watched(w', ts, n + 1, g, i, a)
  {
    var orders :| SweepResult(w, w', orders, t.at);
    PassKeepsTheYoung(w, w', orders, t.at, g, i);
    HeardThroughPass(ts, n, g, a.port);
  }

  lemma NobodyHeard(w: Globals, ts: seq<Tick>, g: int, i: nat, a: Addr)
    requires ValidGlobals(w) && w.beats == map[]
    requires g in w.servers && i < |w.servers[g]| && a == w.servers[g][i].addr
    ensures Watched(w, ts, 0, g, i, a)
  {
  }

  /** Over any heartbeats and passes a server is alive exactly if it has been heard
      from and no pass since its last heartbeat came more than 300 milliseconds after
      that. */
  lemma {:induction false} AliveIfHeard(ws: seq<Globals>, ts: seq<Tick>, n: nat, g: int, i: nat, a: Addr)
    requires IsWatch(ws, ts) && n <= |ts|
    requires g in ws[0].servers && i < |ws[0].servers[g]| && a == ws[0].servers[g][i].addr
    ensures Watched(ws[n], ts, n, g, i, a)
  {
    if n == 0 {
      NobodyHeard(ws[0], ts, g, i, a);
    } else {
      AliveIfHeard(ws, ts, n - 1, g, i, a);
      WatchStep(ws, ts, n - 1, g, i, a);
    }
  }

  lemma WatchStep(ws: seq<Globals>, ts: seq<Tick>, n: nat, g: int, i: nat, a: Addr)
    requires IsWatch(ws, ts) && n < |ts| && Watched(ws[n], ts, n, g, i, a)
    ensures Watched(ws[n + 1], ts, n + 1, g, i, a)
  {
    TickWatched(ws[n], ts[n], ws[n + 1], ts, n, g, i, a);
  }

  lemma TickWatched(w: Globals, t: Tick, w': Globals, ts: seq<Tick>, n: nat, g: int, i: nat, a: Addr)
    requires n < |ts| && ts[n] == t && Ticked(w, t, w') && Watched(w, ts, n, g, i, a)
    ensures Watched(w', ts, n + 1, g, i, a)
  {
    if t.Pass? {
      PassWatched(w, t, w', ts, n, g, i, a);
    } else if t.group == g && t.port == a.port {
      OwnHeartbeat(w, t, w', ts, n, g, i, a);
    } else {
      OthersHeartbeat(w, t, w', ts, n, g, i, a);
    }
  }

  /** A server that every pass finds to have been heard from in the last 300
      milliseconds is never declared dead. */
  lemma PunctualLives(ws: seq<Globals>, ts: seq<Tick>, n: nat, g: int, i: nat, a: Addr, k: nat)
    requires IsWatch(ws, ts) && n <= |ts| && LastHeard(ts, n, g, a.port, k)
    requires g in ws[0].servers && i < |ws[0].servers[g]| && a == ws[0].servers[g][i].addr
    requires forall m, h :: 0 <= m < n && ts[m].Pass? && LastHeard(ts, m, g, a.port, h) ==> ts[m].at - ts[h].at <= 300
    ensures g in ws[n].servers && i < |ws[n].servers[g]| && !ws[n].servers[g][i].isDead
  {
    AliveIfHeard(ws, ts, n, g, i, a);
    forall j | k < j < n && ts[j].Pass?
      ensures ts[j].at - ts[k].at <= 300
    {
      assert LastHeard(ts, j, g, a.port, k);
    }
    assert HeardInTime(ts, n, g, a.port, k);
  }

  /** A server whose last heartbeat is older than that, or that has sent none, is dead
      after the next pass. */
  lemma SilentDies(ws: seq<Globals>, ts: seq<Tick>, n: nat, g: int, i: nat, a: Addr)
    requires IsWatch(ws, ts) && n < |ts| && ts[n].Pass?
    requires g in ws[0].servers && i < |ws[0].servers[g]| && a == ws[0].servers[g][i].addr
    requires forall k :: LastHeard(ts, n, g, a.port, k) ==> ts[n].at - ts[k].at > 300
    ensures g in ws[n + 1].servers && i < |ws[n + 1].servers[g]| && ws[n + 1].servers[g][i].isDead
  {
    AliveIfHeard(ws, ts, n + 1, g, i, a);
    HeardThroughPass(ts, n, g, a.port);
  }
}

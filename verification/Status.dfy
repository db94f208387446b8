/** Status messages: what the master prints, how a replica decodes it, and what
    the replica then does to its own flags and server list. */
module Status {
  import opened Optional
  import opened Text
  import opened Numbers

  datatype Addr = Addr(ip: string, port: int)

  datatype ServerInfo = ServerInfo(addr: Addr, isPrimary: bool, isDead: bool)

  /** A decoded message. Malformed stands for a text on which stoi throws and the
      replica's process ends. */
  datatype Message =
    | BePrimary(newSecondary: Maybe<Addr>, dead: Maybe<Addr>)
    | BeSecondary(primary: Addr, dead: Maybe<Addr>)
    | Malformed

  // ---- Printing, by the master ----

  function AddrText(a: Addr): string {
    a.ip + ":" + IntText(a.port)
  }

  /** The part of a message that names the dead server */
  function DeadText(dead: Maybe<Addr>): string {
    if dead.Just? then ";" + AddrText(dead.value) else ""
  }

  /** sendIsPrimary */
  function StatusText(isPrimary: bool, primary: Addr, dead: Maybe<Addr>): string {
    (if isPrimary then "PRIMARY:" else "SECONDARY:" + AddrText(primary) + "@")
    + DeadText(dead)
  }

  /** sendNewSecondaryInfoToPrimary */
  function NewSecondaryText(secondary: Addr): string {
    "PRIMARY:" + AddrText(secondary) + "@"
  }

  // ---- Decoding, by the replica ----

  /** string::substr, where a position of -1 is npos and a length computed below
      zero has wrapped around to a huge one */
  function Substr(s: string, pos: nat, len: int): string
    requires pos <= |s|
  {
    if len < 0 || pos + len > |s| then s[pos..] else s[pos..pos + len]
  }

  function ParseAddr(s: string): Maybe<Addr> {
    var colon := IndexOf(s, ':');
    match Stoi(s[colon + 1..])
    case Throws => Nothing
    case Number(n) => Just(Addr(Substr(s, 0, colon), n))
  }

  function Parse(text: string): Message {
    var colon, at, semi := IndexOf(text, ':'), IndexOf(text, '@'), IndexOf(text, ';');
    var named := ParseAddr(Substr(text, colon + 1, at - colon - 1));
    var dead := if semi == -1 then Nothing else ParseAddr(text[semi + 1..]);
    if semi != -1 && dead.Nothing? then Malformed
    else if Substr(text, 0, colon) == "PRIMARY" then
      if at == -1 then BePrimary(Nothing, dead)
      else if named.Nothing? then Malformed
      else BePrimary(named, dead)
    else if named.Nothing? then Malformed
    else BeSecondary(named.value, dead)
  }

  // ---- The receiving replica ----

  /** myInfo, primaryInfo and the replica's own copy of its group's server list */
  datatype Local = Local(me: ServerInfo, primaryInfo: ServerInfo, peers: seq<ServerInfo>)

  function MarkSelf(p: ServerInfo, me: ServerInfo): ServerInfo {
    if p.addr == me.addr then me else p
  }

  function MarkAlive(p: ServerInfo, a: Addr): ServerInfo {
    if p.addr == a then p.(isDead := false, isPrimary := false) else p
  }

  function MarkPrimary(p: ServerInfo, a: Addr): ServerInfo {
    if p.addr == a then p.(isPrimary := true) else p
  }

  function MarkDead(p: ServerInfo, a: Addr): ServerInfo {
    if p.addr == a then p.(isDead := true, isPrimary := false) else p
  }

  /** The last entry with address a, or other if there is none */
  function LastWith(peers: seq<ServerInfo>, a: Addr, other: ServerInfo): (r: ServerInfo)
    ensures r.addr == a || r == other
    ensures (exists p :: p in peers && p.addr == a) ==> r.addr == a && r in peers
  {
    if peers == [] then other
    else if peers[|peers| - 1].addr == a then peers[|peers| - 1]
    else LastWith(peers[..|peers| - 1], a, other)
  }

  function StoreSelfIn(peers: seq<ServerInfo>, me: ServerInfo): (r: seq<ServerInfo>)
    ensures |r| == |peers|
    ensures forall i :: 0 <= i < |peers| ==> r[i] == MarkSelf(peers[i], me)
  {
    seq(|peers|, i requires 0 <= i < |peers| => MarkSelf(peers[i], me))
  }

  function ReviveIn(peers: seq<ServerInfo>, alive: Maybe<Addr>): (r: seq<ServerInfo>)
    ensures |r| == |peers|
    ensures forall i :: 0 <= i < |peers| ==> r[i] == if alive.Just? then MarkAlive(peers[i], alive.value) else peers[i]
  {
    seq(|peers|, i requires 0 <= i < |peers| => if alive.Just? then MarkAlive(peers[i], alive.value) else peers[i])
  }

  function FollowIn(peers: seq<ServerInfo>, me: ServerInfo, primary: Addr): (r: seq<ServerInfo>)
    ensures |r| == |peers|
    ensures forall i :: 0 <= i < |peers| ==> r[i] == MarkPrimary(MarkSelf(peers[i], me), primary)
  {
    seq(|peers|, i requires 0 <= i < |peers| => MarkPrimary(MarkSelf(peers[i], me), primary))
  }

  function BuryIn(peers: seq<ServerInfo>, dead: Maybe<Addr>): (r: seq<ServerInfo>)
    ensures |r| == |peers|
    ensures forall i :: 0 <= i < |peers| ==> r[i] == if dead.Just? then MarkDead(peers[i], dead.value) else peers[i]
  {
    seq(|peers|, i requires 0 <= i < |peers| => if dead.Just? then MarkDead(peers[i], dead.value) else peers[i])
  }

  function Update(l: Local, m: Message): (l': Local)
    ensures |l'.peers| == |l.peers| && l'.me.addr == l.me.addr
    ensures forall i :: 0 <= i < |l.peers| ==> l'.peers[i].addr == l.peers[i].addr
  {
    match m
    case Malformed => l
    case BePrimary(added, dead) =>
      var me := l.me.(isPrimary := true, isDead := false);
      Local(me, l.primaryInfo, BuryIn(ReviveIn(StoreSelfIn(l.peers, me), added), dead))
    case BeSecondary(primary, dead) =>
      var me := l.me.(isPrimary := false, isDead := false);
      var ps := FollowIn(l.peers, me, primary);
      Local(me, LastWith(ps, primary, l.primaryInfo), BuryIn(ps, dead))
  }

  function Receive(l: Local, text: string): Local {
    Update(l, Parse(text))
  }

  // ---- The replica decodes exactly what the master printed ----

  predicate PlainIp(ip: string) {
    ':' !in ip && '@' !in ip && ';' !in ip
  }

  predicate PlainAddr(a: Addr) {
    PlainIp(a.ip) && 0 <= a.port <= INT_MAX
  }

  lemma NatTextPlain(n: nat)
    ensures ':' !in NatText(n) && '@' !in NatText(n) && ';' !in NatText(n)
  {
  }

  lemma ParseAddrRoundTrip(a: Addr)
    requires PlainAddr(a)
    ensures ParseAddr(AddrText(a)) == Just(a)
  {
    var s := AddrText(a);
    assert s[..|a.ip|] == a.ip && s[|a.ip|] == ':';
    IndexIs(s, ':', |a.ip|);
    assert s[|a.ip| + 1..] == NatText(a.port) + "";
    StoiRoundTrip(a.port, "");
  }

  lemma DeadSuffix(prefix: string, dead: Maybe<Addr>)
    requires ';' !in prefix
    requires dead.Just? ==> PlainAddr(dead.value)
    ensures
      var text := prefix + DeadText(dead);
      var semi := IndexOf(text, ';');
      && (dead.Nothing? <==> semi == -1)
      && (dead.Just? ==> ParseAddr(text[semi + 1..]) == dead)
  {
    if dead.Just? {
      ParseAddrRoundTrip(dead.value);
      SomeSuffix(prefix, AddrText(dead.value), DeadText(dead));
    } else {
      assert prefix + DeadText(dead) == prefix;
      IndexNone(prefix, ';');
    }
  }

  lemma SomeSuffix(prefix: string, body: string, suffix: string)
    requires ';' !in prefix && suffix == ";" + body
    ensures IndexOf(prefix + suffix, ';') == |prefix| && (prefix + suffix)[|prefix| + 1..] == body
  {
    SuffixPosition(prefix, body);
    assert prefix + suffix == prefix + ";" + body;
  }

  lemma SuffixPosition(prefix: string, body: string)
    requires ';' !in prefix
    ensures IndexOf(prefix + ";" + body, ';') == |prefix|
    ensures (prefix + ";" + body)[|prefix| + 1..] == body
  {
    var text := prefix + ";" + body;
    assert text[..|prefix|] == prefix && text[|prefix|] == ';';
    IndexIs(text, ';', |prefix|);
  }

  /** Where the colon and the at sign of a naming message are */
  lemma NamePositions(head: string, body: string, tail: string)
    requires PlainIp(head) && '@' !in body
    ensures
      var text := head + ":" + body + "@" + tail;
      var colon, at := IndexOf(text, ':'), IndexOf(text, '@');
      && colon == |head| && at == |head| + 1 + |body|
      && Substr(text, 0, colon) == head
      && Substr(text, colon + 1, at - colon - 1) == body
  {
    var text := head + ":" + body + "@" + tail;
    var at := |head| + 1 + |body|;
    assert text[..|head|] == head && text[|head|] == ':';
    IndexIs(text, ':', |head|);
    assert text[..at] == head + ":" + body && text[at] == '@';
    assert '@' !in ":";
    IndexIs(text, '@', at);
    assert text[|head| + 1..at] == body;
  }

  lemma ParseParts(text: string, head: string, a: Addr, dead: Maybe<Addr>)
    requires
      var colon, at, semi := IndexOf(text, ':'), IndexOf(text, '@'), IndexOf(text, ';');
      && at >= 0 && Substr(text, 0, colon) == head
      && ParseAddr(Substr(text, colon + 1, at - colon - 1)) == Just(a)
      && (dead.Nothing? <==> semi == -1)
      && (dead.Just? ==> ParseAddr(text[semi + 1..]) == dead)
    ensures Parse(text) == if head == "PRIMARY" then BePrimary(Just(a), dead) else BeSecondary(a, dead)
  {
  }

  /** A message that names an address between the first colon and the at sign. */
  lemma ParseNamed(head: string, a: Addr, dead: Maybe<Addr>)
    requires PlainIp(head) && PlainAddr(a) && (dead.Just? ==> PlainAddr(dead.value))
    ensures
      Parse(head + ":" + AddrText(a) + "@" + DeadText(dead)) ==
      if head == "PRIMARY" then BePrimary(Just(a), dead) else BeSecondary(a, dead)
  {
    AddrTextPlain(a);
    ParseAddrRoundTrip(a);
    ParseNamedBody(head, AddrText(a), a, dead);
  }

  lemma ParseNamedBody(head: string, body: string, a: Addr, dead: Maybe<Addr>)
    requires PlainIp(head) && '@' !in body && ';' !in body && ParseAddr(body) == Just(a)
    requires dead.Just? ==> PlainAddr(dead.value)
    ensures
      Parse(head + ":" + body + "@" + DeadText(dead)) ==
      if head == "PRIMARY" then BePrimary(Just(a), dead) else BeSecondary(a, dead)
  {
    var prefix := head + ":" + body + "@";
    assert ';' !in prefix;
    NamePositions(head, body, DeadText(dead));
    DeadSuffix(prefix, dead);
    ParseParts(prefix + DeadText(dead), head, a, dead);
  }

  lemma AddrTextPlain(a: Addr)
    requires PlainAddr(a)
    ensures '@' !in AddrText(a) && ';' !in AddrText(a)
  {
    NatTextPlain(a.port);
  }

  lemma ParseUnnamed(dead: Maybe<Addr>)
    requires dead.Just? ==> PlainAddr(dead.value)
    ensures Parse("PRIMARY:" + DeadText(dead)) == BePrimary(Nothing, dead)
  {
    if dead.Just? {
      AddrTextPlain(dead.value);
    }
    DeadSuffix("PRIMARY:", dead);
    assert "PRIMARY" + ":" == "PRIMARY:";
    UnnamedParts("PRIMARY", DeadText(dead));
    ParseUnnamedText("PRIMARY:" + DeadText(dead), dead);
  }

  lemma ParseUnnamedText(text: string, dead: Maybe<Addr>)
    requires
      var semi, colon := IndexOf(text, ';'), IndexOf(text, ':');
      && IndexOf(text, '@') == -1 && Substr(text, 0, colon) == "PRIMARY"
      && (dead.Nothing? <==> semi == -1)
      && (dead.Just? ==> ParseAddr(text[semi + 1..]) == dead)
    ensures Parse(text) == BePrimary(Nothing, dead)
  {
  }

  lemma UnnamedParts(head: string, suffix: string)
    requires ':' !in head && '@' !in head && '@' !in suffix
    ensures
      var text := head + ":" + suffix;
      IndexOf(text, ':') == |head| && IndexOf(text, '@') == -1 && Substr(text, 0, |head|) == head
  {
    var text := head + ":" + suffix;
    assert text[..|head|] == head && text[|head|] == ':';
    IndexIs(text, ':', |head|);
    assert '@' !in ":";
    IndexNone(text, '@');
  }

  /** receiveStatus decodes what sendIsPrimary printed. */
  lemma StatusRoundTrip(isPrimary: bool, primary: Addr, dead: Maybe<Addr>)
    requires PlainAddr(primary) && (dead.Just? ==> PlainAddr(dead.value))
    ensures Parse(StatusText(isPrimary, primary, dead)) ==
            if isPrimary then BePrimary(Nothing, dead) else BeSecondary(primary, dead)
  {
    if isPrimary {
      ParseUnnamed(dead);
    } else {
      var body, tail := AddrText(primary), DeadText(dead);
      ParseNamed("SECONDARY", primary, dead);
      SecondaryHead();
      assert "SECONDARY:" + body + "@" + tail == "SECONDARY" + ":" + body + "@" + tail;
    }
  }

  lemma SecondaryHead()
    ensures "SECONDARY" != "PRIMARY" && "SECONDARY:" == "SECONDARY" + ":" && PlainIp("SECONDARY")
    ensures "PRIMARY:" == "PRIMARY" + ":" && PlainIp("PRIMARY")
  {
    assert |"SECONDARY"| == 9 && |"PRIMARY"| == 7;
  }

  /** receiveStatus decodes what sendNewSecondaryInfoToPrimary printed. */
  lemma NewSecondaryRoundTrip(secondary: Addr)
    requires PlainAddr(secondary)
    ensures Parse(NewSecondaryText(secondary)) == BePrimary(Just(secondary), Nothing)
  {
    SecondaryHead();
    ParseNamed("PRIMARY", secondary, Nothing);
    assert NewSecondaryText(secondary) == "PRIMARY" + ":" + AddrText(secondary) + "@" + "";
  }

  // ---- What a letter does to the list ----

  /** Entry e of a list becomes e' when the letter of sendIsPrimary comes in: the dead
      server is dead and unflagged whatever the receiver's role, the receiver is alive,
      the named primary is flagged, and nothing else changes. */
  ghost predicate Relisted(me: Addr, e: ServerInfo, e': ServerInfo, isPrimary: bool, primary: Addr, dead: Maybe<Addr>) {
    && e'.addr == e.addr
    && (e'.isDead <==> dead == Just(e.addr) || (e.addr != me && e.isDead))
    && (e'.isPrimary <==>
         && dead != Just(e.addr)
         && if isPrimary then e.addr == me || e.isPrimary else e.addr == primary || (e.addr != me && e.isPrimary))
  }

  lemma StatusEntries(l: Local, isPrimary: bool, primary: Addr, dead: Maybe<Addr>)
    requires PlainAddr(primary) && (dead.Just? ==> PlainAddr(dead.value))
    ensures
      var l' := Receive(l, StatusText(isPrimary, primary, dead));
      && l'.me == ServerInfo(l.me.addr, isPrimary, false)
      && |l'.peers| == |l.peers|
      && forall j :: 0 <= j < |l.peers| ==> Relisted(l.me.addr, l.peers[j], l'.peers[j], isPrimary, primary, dead)
  {
    StatusRoundTrip(isPrimary, primary, dead);
  }

  /** A secondary remembers the named primary if its list has it, a primary the one it
      had before. */
  lemma StatusNames(l: Local, isPrimary: bool, primary: Addr, dead: Maybe<Addr>)
    requires PlainAddr(primary) && (dead.Just? ==> PlainAddr(dead.value))
    ensures
      var l' := Receive(l, StatusText(isPrimary, primary, dead));
      if !isPrimary && exists j :: 0 <= j < |l.peers| && l.peers[j].addr == primary
        then l'.primaryInfo.addr == primary && l'.primaryInfo.isPrimary
        else l'.primaryInfo == l.primaryInfo
  {
    StatusRoundTrip(isPrimary, primary, dead);
    if !isPrimary {
      var me := ServerInfo(l.me.addr, false, false);
      var ps := FollowIn(l.peers, me, primary);
      if j :| 0 <= j < |l.peers| && l.peers[j].addr == primary {
        assert ps[j] in ps && ps[j].addr == primary;
      } else {
        LastNone(ps, primary, l.primaryInfo);
      }
    }
  }

  lemma {:induction false} LastNone(peers: seq<ServerInfo>, a: Addr, other: ServerInfo)
    requires forall j :: 0 <= j < |peers| ==> peers[j].addr != a
    ensures LastWith(peers, a, other) == other
  {
    if peers != [] {
      LastNone(peers[..|peers| - 1], a, other);
    }
  }

  /** The letter of sendNewSecondaryInfoToPrimary: the receiver is primary, the new
      secondary alive and unflagged, and nothing else changes. */
  lemma NewSecondaryEntries(l: Local, secondary: Addr)
    requires PlainAddr(secondary)
    ensures
      var l' := Receive(l, NewSecondaryText(secondary));
      && l'.me == ServerInfo(l.me.addr, true, false) && l'.primaryInfo == l.primaryInfo
      && |l'.peers| == |l.peers|
      && forall j :: 0 <= j < |l.peers| ==>
           var e, e' := l.peers[j], l'.peers[j];
           && e'.addr == e.addr
           && (e'.isDead <==> e.addr != secondary && e.addr != l.me.addr && e.isDead)
           && (e'.isPrimary <==> e.addr != secondary && (e.addr == l.me.addr || e.isPrimary))
  {
    NewSecondaryRoundTrip(secondary);
  }

  /** A message that names a dead server whose port is no number, or too large for an
      int, ends the process. */
  lemma DeadPortUnread(prefix: string, ip: string, port: string)
    requires ';' !in prefix && PlainIp(ip)
    requires port == "" || 'a' <= port[0] <= 'z' || exists n :: n > INT_MAX && port == IntText(n)
    ensures Parse(prefix + ";" + (ip + ":" + port)).Malformed?
  {
    if n :| n > INT_MAX && port == IntText(n) {
      StoiPrinted(n, "");
      assert IntText(n) + "" == port;
    } else {
      StoiNoNumber(port);
    }
    var named := ip + ":" + port;
    assert named[..|ip|] == ip && named[|ip|] == ':' && named[|ip| + 1..] == port;
    IndexIs(named, ':', |ip|);
    SuffixPosition(prefix, named);
  }
}

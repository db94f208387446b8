/** What a server answers to a line, whatever the line and the state of the group,
    and what each answer says about the tables. */
module Answers {
  import opened Text
  import opened Store
  import opened Wire
  import opened Status
  import opened Recovery
  import opened Cluster

  // ---- A write at the primary ----

  /** A conditional write finds the value it expects; the others have no condition. */
  predicate Matches(t: Table, cmd: Cmd) {
    cmd.IsWrite() && (cmd.Cput? ==> Lookup(t, cmd.row, cmd.col) == cmd.expected)
  }

  /** A server that the primary takes for a live secondary and that will not take the
      write: there is no connection to it, it is disabled, or it holds another value
      than a conditional write expects. */
  predicate Blocks(s: Server, e: ServerInfo, link: Link, cmd: Cmd) {
    && !e.isPrimary && !e.isDead
    && (link == NoSocket || link == NoConnect || !s.enabled || !Matches(s.table, cmd))
  }

  /** Of the servers on p's list k is the first that will not take the write, and not
      for want of a socket. */
  predicate FailsAt(net: Net, p: nat, cmd: Cmd, links: seq<Link>, k: int) {
    && Sized(net, p, links) && 0 <= k < |net|
    && Blocks(net[k], net[p].role.peers[k], links[k], cmd) && links[k] != NoSocket
    && forall j :: 0 <= j < k ==> !Blocks(net[j], net[p].role.peers[j], links[j], cmd)
  }

  /** p writes cmd: its own table allows it and no secondary fails it. */
  ghost predicate Writes(net: Net, p: nat, cmd: Cmd, links: seq<Link>) {
    p < |net| && Matches(net[p].table, cmd) && !exists k :: FailsAt(net, p, cmd, links, k)
  }

  /** The table of server q is the old one with the write, which took effect. */
  predicate WrittenAt(net: Net, net': Net, q: nat, cmd: Cmd) {
    q < |net| == |net'| && Matches(net[q].table, cmd) && net'[q].table == Apply(net[q].table, cmd)
  }

  /** No value at server q has changed. */
  ghost predicate KeptAt(net: Net, net': Net, q: nat) {
    q < |net| == |net'| && Same(net'[q].table, net[q].table)
  }

  lemma PassesUnlessBlocks(s: Server, e: ServerInfo, link: Link, cmd: Cmd)
    requires cmd.IsWrite()
    ensures Passes(s, e, link, cmd) <==> !Blocks(s, e, link, cmd)
  {
  }

  /** The forwarding loop returns false exactly if some server fails the write. */
  lemma FailureIsAt(net: Net, p: nat, cmd: Cmd, links: seq<Link>)
    requires Sized(net, p, links) && cmd.IsWrite()
    ensures ForwardResult(net, p, cmd, links) <==> !exists k :: FailsAt(net, p, cmd, links, k)
  {
    var peers := net[p].role.peers;
    var k := StopAt(net, peers, cmd, links, 0);
    forall j | 0 <= j < |net|
      ensures Passes(net[j], peers[j], links[j], cmd) <==> !Blocks(net[j], peers[j], links[j], cmd)
    {
      PassesUnlessBlocks(net[j], peers[j], links[j], cmd);
    }
    if k < |net| && links[k] != NoSocket {
      assert FailsAt(net, p, cmd, links, k);
    }
  }

  lemma SettledTable(s: Server, s': Server)
    requires Settled(s, s')
    ensures s'.table == s.table
  {
  }

  lemma CoordinatedAnswer(net: Net, net': Net, p: nat, cmd: Cmd, links: seq<Link>, reply: Reply)
    requires Sized(net, p, links) && cmd.IsWrite() && Coordinated(net, net', p, cmd, links, reply)
    ensures reply == Ok <==> Writes(net, p, cmd, links)
    ensures reply == Ok || reply == Error
    ensures if reply == Ok then WrittenAt(net, net', p, cmd) else KeptAt(net, net', p)
  {
    FailureIsAt(net, p, cmd, links);
    if ForwardResult(net, p, cmd, links) {
      SettledTable(Exec(net[p], cmd), net'[p]);
      if !Succeeds(net[p].table, cmd) {
        FailedApplySame(net[p].table, cmd);
      }
    } else {
      SettledTable(net[p], net'[p]);
    }
  }

  /** Any line that is a write, at an enabled primary: it is answered OK exactly if the
      primary's table allows it and no live secondary fails it, and then the primary
      has written it; otherwise it is answered with an error and no value of the
      primary has changed. */
  lemma PrimaryAnswer(net: Net, net': Net, p: nat, line: string, toPrimary: Link, links: seq<Link>, reply: Reply)
    requires p < |net| && net[p].enabled && net[p].role.me.isPrimary && CmdOf(line).IsWrite()
    requires Requested(net, net', p, line, toPrimary, links, reply)
    ensures reply == Ok <==> Writes(net, p, CmdOf(line), links)
    ensures reply == Ok || reply == Error
    ensures if reply == Ok then WrittenAt(net, net', p, CmdOf(line)) else KeptAt(net, net', p)
  {
    CoordinatedAnswer(net, net', p, CmdOf(line), links, reply);
  }

  /** The write is in the dead-server log of server j, on a line of its own, and its
      table is as it was. */
  predicate LoggedAt(net: Net, net': Net, j: nat, cmd: Cmd) {
    && j < |net| == |net'|
    && net'[j].deadLog == net[j].deadLog + (Print(cmd) + "\n") && net'[j].table == net[j].table
  }

  /** When a primary answers OK and no socket to a live secondary was missing, every
      other server it holds alive has written it, and it is in the dead-server log of
      every one it holds dead, whether or not the group agreed before. */
  lemma AcknowledgedEverywhere(net: Net, net': Net, p: nat, line: string, toPrimary: Link, links: seq<Link>)
    requires p < |net| && net[p].enabled && net[p].role.me.isPrimary && CmdOf(line).IsWrite()
    requires Requested(net, net', p, line, toPrimary, links, Ok)
    requires forall j :: 0 <= j < |links| && j < |net[p].role.peers| && Live(net[p].role.peers[j]) ==>
      links[j] != NoSocket
    ensures |net[p].role.peers| == |net|
    ensures forall j: nat :: j < |net| && j != p && !net[p].role.peers[j].isPrimary ==>
      if net[p].role.peers[j].isDead then LoggedAt(net, net', j, CmdOf(line)) else WrittenAt(net, net', j, CmdOf(line))
  {
    var cmd, peers := CmdOf(line), net[p].role.peers;
    CoordinatedAnswer(net, net', p, cmd, links, Ok);
    assert ForwardResult(net, p, cmd, links);
    forall j: nat | j < |net| && j != p && !peers[j].isPrimary
      ensures if peers[j].isDead then LoggedAt(net, net', j, cmd) else WrittenAt(net, net', j, cmd)
    {
      assert Passed(net[j], net'[j], peers[j], cmd) && Passes(net[j], peers[j], links[j], cmd);
      PassedLeaves(net, net', peers[j], links[j], cmd, j);
    }
  }

  lemma PassedLeaves(net: Net, net': Net, e: ServerInfo, link: Link, cmd: Cmd, j: nat)
    requires j < |net| == |net'| && cmd.IsWrite() && !e.isPrimary
    requires Passed(net[j], net'[j], e, cmd) && Passes(net[j], e, link, cmd)
    ensures if e.isDead then LoggedAt(net, net', j, cmd) else WrittenAt(net, net', j, cmd)
  {
    if e.isDead {
      Regroup(net[j].deadLog, Print(cmd), "\n");
    } else {
      SettledTable(Exec(net[j], cmd), net'[j]);
    }
  }

  // ---- The other lines ----

  /** A disabled server answers every line with an error, and nothing happens. */
  lemma DisabledAnswer(net: Net, net': Net, i: nat, line: string, toPrimary: Link, links: seq<Link>, reply: Reply)
    requires i < |net| && !net[i].enabled
    requires Requested(net, net', i, line, toPrimary, links, reply)
    ensures reply == Error && net' == net
  {
  }

  ghost predicate AllKept(net: Net, net': Net) {
    |net'| == |net| && forall j :: 0 <= j < |net| ==> net'[j].table == net[j].table
  }

  lemma TagRead(line: string, cmd: Cmd, tag: string)
    requires cmd.IsWrite() && CommaFree(cmd) && line == Print(cmd) + "," + tag
    requires tag == TAG_PRIMARY || tag == TAG_SECONDARY
    ensures CmdOf(line) == cmd
    ensures OriginOf(SplitKVStoreCommand(line)) == if tag == TAG_PRIMARY then FromPrimary else FromSecondary
  {
    ForwardRoundTrip(cmd, tag);
  }

  /** A write with the primary's tag, at an enabled server that is not primary, is run
      there and nowhere else. */
  lemma ForwardedAnswer(net: Net, net': Net, i: nat, cmd: Cmd, line: string, toPrimary: Link, links: seq<Link>,
      reply: Reply)
    requires i < |net| && net[i].enabled && !net[i].role.me.isPrimary && cmd.IsWrite() && CommaFree(cmd)
    requires line == Print(cmd) + "," + TAG_PRIMARY && Requested(net, net', i, line, toPrimary, links, reply)
    ensures reply == if Matches(net[i].table, cmd) then Ok else Error
    ensures if reply == Ok then WrittenAt(net, net', i, cmd) else KeptAt(net, net', i)
    ensures OnlyAt(net, net', i)
  {
    TagRead(line, cmd, TAG_PRIMARY);
    ServedHere(net, net', i, line, cmd, toPrimary, links, reply);
  }

  lemma ServedHere(net: Net, net': Net, i: nat, line: string, cmd: Cmd, toPrimary: Link, links: seq<Link>,
      reply: Reply)
    requires i < |net| && net[i].enabled && !net[i].role.me.isPrimary && cmd == CmdOf(line) && cmd.IsWrite()
    requires OriginOf(SplitKVStoreCommand(line)) == FromPrimary
    requires Requested(net, net', i, line, toPrimary, links, reply)
    ensures reply == if Matches(net[i].table, cmd) then Ok else Error
    ensures if reply == Ok then WrittenAt(net, net', i, cmd) else KeptAt(net, net', i)
    ensures OnlyAt(net, net', i)
  {
    SettledTable(Exec(net[i], cmd), net'[i]);
    if !Succeeds(net[i].table, cmd) {
      FailedApplySame(net[i].table, cmd);
    }
  }

  /** A write with a secondary's tag that reaches a server that is not primary is not
      answered and changes no table. */
  lemma MisroutedAnswer(net: Net, net': Net, i: nat, cmd: Cmd, line: string, toPrimary: Link, links: seq<Link>,
      reply: Reply)
    requires i < |net| && net[i].enabled && !net[i].role.me.isPrimary && cmd.IsWrite() && CommaFree(cmd)
    requires line == Print(cmd) + "," + TAG_SECONDARY && Requested(net, net', i, line, toPrimary, links, reply)
    ensures reply == Silent && AllKept(net, net')
  {
    TagRead(line, cmd, TAG_SECONDARY);
    NotServed(net, net', i, line, toPrimary, links, reply);
  }

  lemma NotServed(net: Net, net': Net, i: nat, line: string, toPrimary: Link, links: seq<Link>, reply: Reply)
    requires i < |net| && net[i].enabled && !net[i].role.me.isPrimary && CmdOf(line).IsWrite()
    requires OriginOf(SplitKVStoreCommand(line)) == FromSecondary
    requires Requested(net, net', i, line, toPrimary, links, reply)
    ensures reply == Silent && AllKept(net, net')
  {
    SettledTable(net[i], net'[i]);
  }

  /** Nobody is reached at the address that i has for its primary. */
  predicate Unreached(net: Net, i: nat, toPrimary: Link) {
    i < |net| && (toPrimary != Up || forall j :: 0 <= j < |net| ==> net[j].role.me.addr != net[i].role.primaryInfo.addr)
  }

  /** q is the first server at the address that i has for its primary, and reached. */
  predicate Reaches(net: Net, i: nat, toPrimary: Link, q: int) {
    && i < |net| && toPrimary == Up && 0 <= q < |net| && net[q].role.me.addr == net[i].role.primaryInfo.addr
    && forall j :: 0 <= j < q ==> net[j].role.me.addr != net[i].role.primaryInfo.addr
  }

  /** i has sent cmd on to q, which took it as primary. */
  ghost predicate TakenBy(net: Net, i: nat, cmd: Cmd, toPrimary: Link, links: seq<Link>, q: int) {
    && Reaches(net, i, toPrimary, q)
    && net[q].enabled && net[q].role.me.isPrimary && Writes(net, q, cmd, links)
  }

  /** A frontend's line that is a write, at an enabled server that is not primary: it
      is answered OK exactly if nobody is reached at the primary's address, and then
      no table changes, or the server reached there is an enabled primary that writes
      it. */
  lemma RelayAnswer(net: Net, net': Net, i: nat, line: string, toPrimary: Link, links: seq<Link>, reply: Reply)
    requires i < |net| && net[i].enabled && !net[i].role.me.isPrimary && CmdOf(line).IsWrite()
    requires OriginOf(SplitKVStoreCommand(line)) == FromFrontend
    requires Requested(net, net', i, line, toPrimary, links, reply)
    ensures reply == Ok || reply == Error
    ensures reply == Ok <==>
            Unreached(net, i, toPrimary) || exists q :: TakenBy(net, i, CmdOf(line), toPrimary, links, q)
    ensures Unreached(net, i, toPrimary) ==> AllKept(net, net')
    ensures forall q :: TakenBy(net, i, CmdOf(line), toPrimary, links, q) ==> WrittenAt(net, net', q, CmdOf(line))
    ensures forall q :: Reaches(net, i, toPrimary, q) && reply == Error ==> KeptAt(net, net', q)
  {
    var cmd, q := CmdOf(line), FindAddr(net, net[i].role.primaryInfo.addr);
    var mid :| Relayed(net, mid, i, cmd, toPrimary, links, reply) && |mid| == |net| && OnlyAt(mid, net', i)
               && Settled(mid[i], net'[i]);
    SettledTable(mid[i], net'[i]);
    RelayedAnswer(net, mid, i, cmd, toPrimary, links, reply);
  }

  lemma RelayedAnswer(net: Net, mid: Net, i: nat, cmd: Cmd, toPrimary: Link, links: seq<Link>, reply: Reply)
    requires i < |net| && cmd.IsWrite() && Relayed(net, mid, i, cmd, toPrimary, links, reply)
    ensures reply == Ok || reply == Error
    ensures reply == Ok <==> Unreached(net, i, toPrimary) || exists q :: TakenBy(net, i, cmd, toPrimary, links, q)
    ensures Unreached(net, i, toPrimary) ==> AllKept(net, mid)
    ensures forall q :: TakenBy(net, i, cmd, toPrimary, links, q) ==> WrittenAt(net, mid, q, cmd)
    ensures forall q :: Reaches(net, i, toPrimary, q) && reply == Error ==> KeptAt(net, mid, q)
  {
    var q := FindAddr(net, net[i].role.primaryInfo.addr);
    if toPrimary == Up && q < |net| {
      assert Reaches(net, i, toPrimary, q);
      if net[q].enabled {
        if net[q].role.me.isPrimary {
          CoordinatedAnswer(net, mid, q, cmd, links, reply);
          assert reply == Ok ==> TakenBy(net, i, cmd, toPrimary, links, q);
        } else {
          SettledTable(net[q], mid[q]);
        }
      }
    }
  }

  // ---- Lines that are no write ----

  /** A line that is no write changes no table. A GET of an entry that exists is
      answered with its value, LIST with a listing, and everything else, too few
      parameters and unknown verbs included, with an error. */
  lemma OtherAnswer(net: Net, net': Net, i: nat, line: string, toPrimary: Link, links: seq<Link>, reply: Reply)
    requires i < |net| && net[i].enabled && !CmdOf(line).IsWrite()
    requires Requested(net, net', i, line, toPrimary, links, reply)
    ensures AllKept(net, net') && OnlyAt(net, net', i)
    ensures reply.Found? || reply == Listing || reply == Error
    ensures forall v :: reply == Found(v) <==>
      exists r, c :: CmdOf(line) == Get(r, c) && r in net[i].table && c in net[i].table[r] && net[i].table[r][c] == v
    ensures reply == Listing <==> SplitKVStoreCommand(line)[0] == "LIST "
  {
    SettledTable(net[i], net'[i]);
  }

  /** A client's write with an empty last field, which the parsing drops, is answered
      with an error by every enabled server, and nothing happens. */
  lemma EmptyFieldAnswer(net: Net, net': Net, i: nat, cmd: Cmd, line: string, toPrimary: Link, links: seq<Link>,
      reply: Reply)
    requires i < |net| && net[i].enabled && Durable(net[i]) && cmd.IsWrite() && CommaFree(cmd) && LastField(cmd) == ""
    requires line == Print(cmd) && Requested(net, net', i, line, toPrimary, links, reply)
    ensures reply == Error && net' == net
  {
    LineRoundTrip(cmd);
    VerbSplit(cmd, Commas(Fields(cmd)));
    VerbIsNotList(cmd);
    assert CmdOf(line) == Other && SplitKVStoreCommand(line)[0] == Verb(cmd);
    OtherAnswer(net, net', i, line, toPrimary, links, reply);
    UnreadAnswer(net, net', i, line, toPrimary, links, reply);
  }

  lemma VerbIsNotList(cmd: Cmd)
    requires cmd.IsWrite()
    ensures Verb(cmd) != "LIST "
  {
    assert Verb(cmd)[0] != "LIST "[0];
  }

  /** A line that is no command leaves a durable server as it was. */
  lemma UnreadAnswer(net: Net, net': Net, i: nat, line: string, toPrimary: Link, links: seq<Link>, reply: Reply)
    requires i < |net| && net[i].enabled && Durable(net[i]) && !CmdOf(line).IsWrite()
    requires Requested(net, net', i, line, toPrimary, links, reply)
    ensures net' == net
  {
  }

  // ---- What an acknowledgement means ----

  /** Whatever the line, the server and the group: a line answered OK is a write, the
      server asked is enabled, and the write has taken effect at some server, the one
      asked or the primary it was sent on to, unless it was sent on and nobody was
      reached there. */
  lemma Acknowledged(net: Net, net': Net, i: nat, line: string, toPrimary: Link, links: seq<Link>)
    requires i < |net| && Requested(net, net', i, line, toPrimary, links, Ok)
    ensures net[i].enabled && CmdOf(line).IsWrite()
    ensures
      || WrittenAt(net, net', i, CmdOf(line))
      || (!net[i].role.me.isPrimary &&
          (Unreached(net, i, toPrimary) ||
           exists q: nat :: Reaches(net, i, toPrimary, q) && WrittenAt(net, net', q, CmdOf(line))))
  {
    if !net[i].enabled {
      DisabledAnswer(net, net', i, line, toPrimary, links, Ok);
      assert false;
    } else if !CmdOf(line).IsWrite() {
      OtherAnswer(net, net', i, line, toPrimary, links, Ok);
      assert false;
    } else if net[i].role.me.isPrimary {
      PrimaryAnswer(net, net', i, line, toPrimary, links, Ok);
    } else {
      AcknowledgedElsewhere(net, net', i, line, toPrimary, links);
    }
  }

  lemma AcknowledgedElsewhere(net: Net, net': Net, i: nat, line: string, toPrimary: Link, links: seq<Link>)
    requires i < |net| && net[i].enabled && !net[i].role.me.isPrimary && CmdOf(line).IsWrite()
    requires Requested(net, net', i, line, toPrimary, links, Ok)
    ensures
      || WrittenAt(net, net', i, CmdOf(line))
      || Unreached(net, i, toPrimary)
      || exists q: nat :: Reaches(net, i, toPrimary, q) && WrittenAt(net, net', q, CmdOf(line))
  {
    match OriginOf(SplitKVStoreCommand(line)) {
      case FromPrimary => ServedHere(net, net', i, line, CmdOf(line), toPrimary, links, Ok);
      case FromSecondary =>
        NotServed(net, net', i, line, toPrimary, links, Ok);
        assert false;
      case FromFrontend =>
        RelayAnswer(net, net', i, line, toPrimary, links, Ok);
        if !Unreached(net, i, toPrimary) {
          var q :| TakenBy(net, i, CmdOf(line), toPrimary, links, q);
          assert WrittenAt(net, net', q, CmdOf(line));
        }
    }
  }
}

/** The servers of one replica group as objects that call each other. */
module Groups {
  import opened Text
  import opened Store
  import opened Wire
  import opened Status
  import opened Recovery
  import opened Replicas
  import opened Cluster

  class Group {
    const replicas: seq<Replica>

    ghost predicate Valid()
      reads replicas
    {
      && (forall i, j :: 0 <= i < j < |replicas| ==> replicas[i] != replicas[j])
      && (forall i :: 0 <= i < |replicas| ==> !replicas[i].replaying)
    }

    ghost function Snaps(): (net: Net)
      reads replicas
      ensures |net| == |replicas|
      ensures forall i :: 0 <= i < |replicas| ==> net[i] == replicas[i].Snap()
    {
      seq(|replicas|, i requires 0 <= i < |replicas| reads replicas => replicas[i].Snap())
    }

    constructor (replicas: seq<Replica>)
      requires forall i, j :: 0 <= i < j < |replicas| ==> replicas[i] != replicas[j]
      requires forall i :: 0 <= i < |replicas| ==> !replicas[i].replaying
      ensures this.replicas == replicas && Valid()
    {
      this.replicas := replicas;
    }

    /** p can run the forwarding loop without calling itself back: its own entry
        is flagged and no server it would forward to takes itself for primary. */
    ghost predicate CanCoordinate(p: nat, links: seq<Link>)
      reads replicas
    {
      && Sized(Snaps(), p, links)
      && replicas[p].peers[p].isPrimary
      && NoRivals(Snaps(), p)
    }

    /** A secondary receives a write its primary forwarded. */
    method ApplyForwarded(j: nat, line: string, stamp: nat, ghost cmd: Cmd) returns (reply: Reply)
      requires Valid() && j < |replicas| && !replicas[j].me.isPrimary
      requires cmd.IsWrite() && CommaFree(cmd) && line == Received(ToSecondaries(cmd))
      modifies replicas[j]
      ensures Valid()
      ensures if old(replicas[j].enabled) then Served(old(replicas[j].Snap()), cmd, replicas[j].Snap())
              else replicas[j].Snap() == old(replicas[j].Snap())
      ensures reply == Ok <==> Accepts(old(replicas[j].Snap()), cmd)
    {
      if !replicas[j].enabled {
        return Error;
      }
      assert line == Print(cmd) + "," + TAG_PRIMARY;
      ForwardRoundTrip(cmd, TAG_PRIMARY);
      var params := SplitKVStoreCommand(line);
      reply := replicas[j].RunLocally(params);
      replicas[j].CheckpointIfDue(stamp);
    }

    /** The body of the forwarding loop for one entry */
    method ForwardTo(i: nat, entry: ServerInfo, link: Link, command: string, stamp: nat, ghost cmd: Cmd)
        returns (go: bool)
      requires Valid() && i < |replicas| && (Live(entry) ==> !replicas[i].me.isPrimary)
      requires cmd.IsWrite() && CommaFree(cmd) && command == ToSecondaries(cmd)
      modifies replicas[i]
      ensures Valid() && OnlyAt(old(Snaps()), Snaps(), i)
      ensures go == Passes(old(replicas[i].Snap()), entry, link, cmd)
      ensures if go then Passed(old(replicas[i].Snap()), replicas[i].Snap(), entry, cmd)
              else Stopped(old(replicas[i].Snap()), replicas[i].Snap(), link, cmd)
    {
      go := true;
      if !entry.isPrimary && !entry.isDead {
        if link.NoSocket? || link.NoConnect? {
          return false;
        }
        var response := ApplyForwarded(i, Received(command), stamp, cmd);
        go := response == Ok;
      } else if !entry.isPrimary && entry.isDead {
        StripRoundTrip(cmd);
        var original := StripTag(command);
        if original.Just? {
          replicas[i].deadLog := AppendLine(replicas[i].deadLog, original.value);
        }
      }
    }

    /** The server list is walked in order; the first live secondary that does
        not take the command ends the loop. */
    method ForwardToAllSecondaryServers(p: nat, command: string, links: seq<Link>, stamp: nat, ghost cmd: Cmd)
        returns (ok: bool)
      requires Valid() && CanCoordinate(p, links)
      requires cmd.IsWrite() && CommaFree(cmd) && command == ToSecondaries(cmd)
      modifies replicas
      ensures Valid() && replicas[p].Snap() == old(replicas[p].Snap())
      ensures Spread(old(Snaps()), Snaps(), p, cmd, links)
      ensures ok == ForwardResult(old(Snaps()), p, cmd, links)
    {
      ghost var net := Snaps();
      var peers := replicas[p].peers;
      for i := 0 to |replicas|
        invariant Valid() && Underway(net, Snaps(), p, cmd, links, i)
      {
        ghost var before := Snaps();
        ok := ForwardTo(i, peers[i], links[i], command, stamp, cmd);
        if !ok {
          ok := links[i].NoSocket?;
          SpreadIsDone(net, before, Snaps(), p, cmd, links, i);
          return;
        }
        OneFurther(net, before, Snaps(), p, cmd, links, i);
      }
      ok := true;
    }

    /** The loop has gone past the first i servers and not touched the others. */
    static ghost predicate Underway(net: Net, now: Net, p: nat, cmd: Cmd, links: seq<Link>, i: nat)
      requires Sized(net, p, links) && i <= |net|
    {
      && |now| == |net| && now[p] == net[p]
      && StopAt(net, net[p].role.peers, cmd, links, 0) == StopAt(net, net[p].role.peers, cmd, links, i)
      && (forall j :: 0 <= j < i && j != p ==> Passed(net[j], now[j], net[p].role.peers[j], cmd))
      && (forall j :: i <= j < |net| ==> now[j] == net[j])
    }

    static lemma OneFurther(net: Net, before: Net, after: Net, p: nat, cmd: Cmd, links: seq<Link>, i: nat)
      requires Sized(net, p, links) && i < |net| && Underway(net, before, p, cmd, links, i)
      requires OnlyAt(before, after, i) && (i == p ==> after[i] == before[i])
      requires Passes(net[i], net[p].role.peers[i], links[i], cmd)
      requires Passed(net[i], after[i], net[p].role.peers[i], cmd)
      ensures Underway(net, after, p, cmd, links, i + 1)
    {
    }

    static lemma SpreadIsDone(net: Net, before: Net, after: Net, p: nat, cmd: Cmd, links: seq<Link>, k: nat)
      requires Sized(net, p, links) && k < |net| && k != p && Underway(net, before, p, cmd, links, k)
      requires OnlyAt(before, after, k)
      requires !Passes(net[k], net[p].role.peers[k], links[k], cmd)
      requires Stopped(net[k], after[k], links[k], cmd)
      ensures Spread(net, after, p, cmd, links)
      ensures ForwardResult(net, p, cmd, links) <==> links[k].NoSocket?
    {
      assert StopAt(net, net[p].role.peers, cmd, links, k) == k;
    }

    /** handleCommand for a write at the primary */
    method CoordinateWrite(p: nat, params: seq<string>, links: seq<Link>, stamp: nat) returns (reply: Reply)
      requires Valid() && CanCoordinate(p, links)
      requires |params| >= 1 && Decode(params).IsWrite() && CommaFree(Decode(params))
      modifies replicas
      ensures Valid()
      ensures Sized(old(Snaps()), p, links) && Coordinated(old(Snaps()), Snaps(), p, Decode(params), links, reply)
    {
      var cmd := Decode(params);
      var ok := ForwardToAllSecondaryServers(p, ToSecondaries(cmd), links, stamp, cmd);
      ghost var mid := Snaps();
      reply := Finish(p, params, ok, stamp);
      SpreadIsElsewhere(old(Snaps()), mid, Snaps(), p, cmd, links);
    }

    /** The primary's own part of a write, once the loop has returned */
    method Finish(p: nat, params: seq<string>, ok: bool, stamp: nat) returns (reply: Reply)
      requires Valid() && p < |replicas| && |params| >= 1 && Decode(params).IsWrite()
      modifies replicas[p]
      ensures Valid() && OnlyAt(old(Snaps()), Snaps(), p)
      ensures
        var s, s' := old(replicas[p].Snap()), replicas[p].Snap();
        if ok then Served(s, Decode(params), s') && reply == (if Succeeds(s.table, Decode(params)) then Ok else Error)
        else Settled(s, s') && reply == Error
    {
      if ok {
        reply := replicas[p].RunLocally(params);
      } else {
        reply := Error;
      }
      replicas[p].CheckpointIfDue(stamp);
    }

    static lemma SpreadIsElsewhere(net: Net, mid: Net, net': Net, p: nat, cmd: Cmd, links: seq<Link>)
      requires Sized(net, p, links) && Spread(net, mid, p, cmd, links) && OnlyAt(mid, net', p)
      ensures Spread(net, net', p, cmd, links)
    {
    }

    /** handleCommand for a client's write at a secondary */
    method Relay(i: nat, params: seq<string>, toPrimary: Link, links: seq<Link>, stamp: nat) returns (reply: Reply)
      requires Valid() && i < |replicas|
      requires |params| >= 1 && Decode(params).IsWrite() && CommaFree(Decode(params))
      requires
        var q := FindAddr(Snaps(), replicas[i].primaryInfo.addr);
        q < |replicas| && replicas[q].me.isPrimary ==> CanCoordinate(q, links)
      modifies replicas
      ensures Valid()
      ensures Relayed(old(Snaps()), Snaps(), i, Decode(params), toPrimary, links, reply)
    {
      ghost var net := Snaps();
      var cmd := Decode(params);
      if !toPrimary.Up? {
        return Ok;
      }
      var q := 0;
      while q < |replicas| && replicas[q].me.addr != replicas[i].primaryInfo.addr
        invariant q <= |replicas|
        invariant forall j :: 0 <= j < q ==> net[j].role.me.addr != net[i].role.primaryInfo.addr
      {
        q := q + 1;
      }
      assert q == FindAddr(net, net[i].role.primaryInfo.addr);
      if q == |replicas| {
        return Ok;
      }
      if !replicas[q].enabled {
        return Error;
      }
      var line := Received(ToPrimary(cmd));
      assert line == Print(cmd) + "," + TAG_SECONDARY;
      ForwardRoundTrip(cmd, TAG_SECONDARY);
      if replicas[q].me.isPrimary {
        reply := CoordinateWrite(q, SplitKVStoreCommand(line), links, stamp);
      } else {
        replicas[q].CheckpointIfDue(stamp);
        reply := Error;
      }
    }

    /** threadFunc for one complete line received by server i */
    method Request(i: nat, line: string, toPrimary: Link, links: seq<Link>, stamp: nat) returns (reply: Reply)
      requires Valid() && i < |replicas|
      requires replicas[i].me.isPrimary ==> CanCoordinate(i, links)
      requires
        var q := FindAddr(Snaps(), replicas[i].primaryInfo.addr);
        q < |replicas| && replicas[q].me.isPrimary ==> CanCoordinate(q, links)
      modifies replicas
      ensures Valid()
      ensures Requested(old(Snaps()), Snaps(), i, line, toPrimary, links, reply)
    {
      if !replicas[i].enabled {
        return Error;
      }
      var params := SplitKVStoreCommand(line);
      var origin := OriginOf(params);
      DecodedCommaFree(line);
      if Decode(params).IsWrite() && replicas[i].me.isPrimary {
        reply := CoordinateWrite(i, params, links, stamp);
      } else if Decode(params).IsWrite() && origin.FromFrontend? {
        reply := Relay(i, params, toPrimary, links, stamp);
        ghost var mid := Snaps();
        replicas[i].CheckpointIfDue(stamp);
        assert Relayed(old(Snaps()), mid, i, Decode(params), toPrimary, links, reply) && OnlyAt(mid, Snaps(), i);
      } else {
        reply := RunOwn(i, params, origin, stamp);
      }
    }

    /** handleCommand where nobody else is involved */
    method RunOwn(i: nat, params: seq<string>, origin: Origin, stamp: nat) returns (reply: Reply)
      requires Valid() && i < |replicas| && |params| >= 1
      requires Decode(params).IsWrite() ==> !origin.FromFrontend?
      modifies replicas[i]
      ensures Valid() && OnlyAt(old(Snaps()), Snaps(), i)
      ensures
        var cmd, s, s' := Decode(params), old(replicas[i].Snap()), replicas[i].Snap();
        if cmd.IsWrite() && origin.FromSecondary? then Settled(s, s') && reply == Silent
        else Served(s, cmd, s') && reply == LocalReply(s.table, params)
    {
      if Decode(params).IsWrite() && origin.FromSecondary? {
        reply := Silent;
      } else {
        reply := replicas[i].RunLocally(params);
      }
      replicas[i].CheckpointIfDue(stamp);
    }
  }
}

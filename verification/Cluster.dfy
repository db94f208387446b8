/** The replica group: what one write does to every server, the agreement between
    the primary and its secondaries over whole runs, and the single map that a
    run looks like from outside. */
module Cluster {
  import opened Text
  import opened Store
  import opened Wire
  import opened Status
  import opened Recovery

  /** The servers of one group, in the order of everybody's server list */
  type Net = seq<Server>

  /** How one attempt to reach another server goes */
  datatype Link = NoSocket | NoConnect | Up

  predicate Live(e: ServerInfo) {
    !e.isPrimary && !e.isDead
  }

  predicate Gone(e: ServerInfo) {
    !e.isPrimary && e.isDead
  }

  // ---- One write ----

  /** A secondary answers +OK to a forwarded write. */
  predicate Accepts(s: Server, cmd: Cmd) {
    s.enabled && Succeeds(s.table, cmd)
  }

  predicate Passes(s: Server, e: ServerInfo, link: Link, cmd: Cmd) {
    Live(e) ==> link.Up? && Accepts(s, cmd)
  }

  /** The first server at which the forwarding loop stops, or the number of
      servers if it runs to the end */
  function StopAt(net: Net, peers: seq<ServerInfo>, cmd: Cmd, links: seq<Link>, from: nat): (k: nat)
    requires |peers| == |links| == |net| && from <= |net|
    ensures from <= k <= |net|
    ensures forall j :: from <= j < k ==> Passes(net[j], peers[j], links[j], cmd)
    ensures k < |net| ==> !Passes(net[k], peers[k], links[k], cmd)
    decreases |net| - from
  {
    if from == |net| then from
    else if Passes(net[from], peers[from], links[from], cmd) then StopAt(net, peers, cmd, links, from + 1)
    else from
  }

  /** A server the loop went past: a live secondary has run the command, a dead
      one has it in its dead-server log. */
  ghost predicate Passed(s: Server, s': Server, e: ServerInfo, cmd: Cmd) {
    if Live(e) then Served(s, cmd, s')
    else if Gone(e) then s' == s.(deadLog := AppendLine(s.deadLog, Print(cmd)))
    else s' == s
  }

  /** The server the loop stopped at: it has run the command if it was reached,
      though without success. */
  ghost predicate Stopped(s: Server, s': Server, link: Link, cmd: Cmd) {
    if link.Up? && s.enabled then Served(s, cmd, s') else s' == s
  }

  ghost predicate Touched(s: Server, s': Server, e: ServerInfo, link: Link, cmd: Cmd, j: int, k: int) {
    if j < k then Passed(s, s', e, cmd) else if j == k then Stopped(s, s', link, cmd) else s' == s
  }

  predicate Sized(net: Net, p: nat, links: seq<Link>) {
    p < |net| == |links| == |net[p].role.peers|
  }

  /** forwardToAllSecondaryServers, run by p: what happened to everyone else */
  ghost predicate Spread(net: Net, net': Net, p: nat, cmd: Cmd, links: seq<Link>)
    requires Sized(net, p, links)
  {
    var peers := net[p].role.peers;
    var k := StopAt(net, peers, cmd, links, 0);
    |net'| == |net| && forall j :: 0 <= j < |net| && j != p ==> Touched(net[j], net'[j], peers[j], links[j], cmd, j, k)
  }

  /** What forwardToAllSecondaryServers returns: a socket that cannot be created
      ends the loop with true. */
  predicate ForwardResult(net: Net, p: nat, cmd: Cmd, links: seq<Link>)
    requires Sized(net, p, links)
  {
    var k := StopAt(net, net[p].role.peers, cmd, links, 0);
    k == |net| || links[k].NoSocket?
  }

  /** A write handled by the primary p */
  ghost predicate Coordinated(net: Net, net': Net, p: nat, cmd: Cmd, links: seq<Link>, reply: Reply)
    requires Sized(net, p, links)
  {
    && Spread(net, net', p, cmd, links)
    && if ForwardResult(net, p, cmd, links) then
         && Served(net[p], cmd, net'[p])
         && reply == (if Succeeds(net[p].table, cmd) then Ok else Error)
       else
         && Settled(net[p], net'[p])
         && reply == Error
  }

  /** The server listening at an address, or the number of servers */
  function FindAddr(net: Net, a: Addr): (q: nat)
    ensures q <= |net|
    ensures q < |net| ==> net[q].role.me.addr == a
    ensures forall j :: 0 <= j < q ==> net[j].role.me.addr != a
  {
    if net == [] then 0
    else if net[0].role.me.addr == a then 0
    else 1 + FindAddr(net[1..], a)
  }

  /** A write sent on by the secondary i. A socket or connection that fails
      counts as success there. */
  ghost predicate Relayed(net: Net, net': Net, i: nat, cmd: Cmd, toPrimary: Link, links: seq<Link>, reply: Reply)
    requires i < |net|
  {
    var q := FindAddr(net, net[i].role.primaryInfo.addr);
    if !toPrimary.Up? || q == |net| then
      net' == net && reply == Ok
    else if !net[q].enabled then
      net' == net && reply == Error
    else if net[q].role.me.isPrimary then
      Sized(net, q, links) && Coordinated(net, net', q, cmd, links, reply)
    else
      OnlyAt(net, net', q) && Settled(net[q], net'[q]) && reply == Error
  }

  ghost predicate OnlyAt(net: Net, net': Net, i: nat)
    requires i < |net|
  {
    |net'| == |net| && forall j :: 0 <= j < |net| && j != i ==> net'[j] == net[j]
  }

  /** One line received by server i: threadFunc with handleCommand */
  ghost predicate Requested(net: Net, net': Net, i: nat, line: string, toPrimary: Link, links: seq<Link>, reply: Reply)
    requires i < |net|
  {
    var params := SplitKVStoreCommand(line);
    var cmd, origin := Decode(params), OriginOf(params);
    if !net[i].enabled then
      net' == net && reply == Error
    else if cmd.IsWrite() && net[i].role.me.isPrimary then
      Sized(net, i, links) && Coordinated(net, net', i, cmd, links, reply)
    else if cmd.IsWrite() && origin.FromFrontend? then
      exists mid :: && Relayed(net, mid, i, cmd, toPrimary, links, reply)
                    && |mid| == |net| && OnlyAt(mid, net', i) && Settled(mid[i], net'[i])
    else if cmd.IsWrite() && origin.FromPrimary? then
      OnlyAt(net, net', i) && Served(net[i], cmd, net'[i]) && reply == LocalReply(net[i].table, params)
    else if cmd.IsWrite() then
      OnlyAt(net, net', i) && Settled(net[i], net'[i]) && reply == Silent
    else
      OnlyAt(net, net', i) && Settled(net[i], net'[i]) && reply == LocalReply(net[i].table, params)
  }

  /** No server that p forwards to takes itself for primary; such a server would
      forward the command in turn. */
  predicate NoRivals(net: Net, p: nat) {
    && p < |net| == |net[p].role.peers|
    && forall j :: 0 <= j < |net| && Live(net[p].role.peers[j]) ==> !net[j].role.me.isPrimary
  }

  /** Shape of a write whose forwarding failed: the loop stopped at a live secondary k
      that could not be reached, is disabled or refused the command; exactly the live
      ones before k have run it, exactly the dead ones before k have it in their
      dead-server log, and nothing else has changed, the primary included. A write
      that succeeds on the primary's table is answered with an error only then. */
  lemma PartialFailure(net: Net, net': Net, p: nat, cmd: Cmd, links: seq<Link>) returns (k: nat)
    requires Sized(net, p, links) && NoRivals(net, p) && cmd.IsWrite() && Durable(net[p])
    requires Coordinated(net, net', p, cmd, links, Error)
    requires Succeeds(net[p].table, cmd) || !ForwardResult(net, p, cmd, links)
    ensures k < |net| && Live(net[p].role.peers[k])
    ensures links[k].NoConnect? || (links[k].Up? && !Accepts(net[k], cmd))
    ensures net'[p] == net[p]
    ensures forall j :: 0 <= j < k && j != p && Live(net[p].role.peers[j]) ==> Served(net[j], cmd, net'[j])
    ensures forall j :: 0 <= j < k && j != p && Gone(net[p].role.peers[j]) ==>
      net'[j] == net[j].(deadLog := AppendLine(net[j].deadLog, Print(cmd)))
    ensures forall j :: 0 <= j < |net| && (j > k || !(Live(net[p].role.peers[j]) || Gone(net[p].role.peers[j]))) ==>
      net'[j] == net[j]
    ensures k != p ==> net'[k] == net[k] || (links[k].Up? && net[k].enabled && Served(net[k], cmd, net'[k]))
  {
    k := StopAt(net, net[p].role.peers, cmd, links, 0);
    assert k < |net| && !Passes(net[k], net[p].role.peers[k], links[k], cmd);
  }

  // ---- Agreement ----

  /** Same configuration everywhere: distinct addresses, one list order */
  ghost predicate Configured(net: Net) {
    && (forall i, j :: 0 <= i < |net| && 0 <= j < |net| && i != j ==> net[i].role.me.addr != net[j].role.me.addr)
    && (forall i :: 0 <= i < |net| ==> |net[i].role.peers| == |net|)
    && (forall i, j :: 0 <= i < |net| && 0 <= j < |net| ==> net[i].role.peers[j].addr == net[j].role.me.addr)
  }

  /** Server s will hold the table t once it has caught up. */
  ghost predicate CatchesUp(s: Server, t: Table) {
    Same(Replay(s.table, Missed(s)), t)
  }

  /** What the primary's entry e for server s means */
  ghost predicate InStep(s: Server, e: ServerInfo, t: Table) {
    && !e.isPrimary
    && CatchesUp(s, t)
    && (!e.isDead ==> s.deadLog == "" && !s.role.me.isPrimary)
  }

  ghost predicate Sound(s: Server) {
    Durable(s) && AllLoggable(Missed(s))
  }

  /** The replication invariant, over the primary's own list: a server it holds
      alive has its table, a server it holds dead has it after replaying its
      dead-server log. */
  ghost predicate Agreeing(net: Net, p: nat) {
    && p < |net|
    && Configured(net)
    && (forall j {:trigger Sound(net[j])} :: 0 <= j < |net| ==> Sound(net[j]))
    && net[p].role.me.isPrimary
    && net[p].role.peers[p].isPrimary
    && net[p].deadLog == ""
    && (forall j :: 0 <= j < |net| && j != p ==> InStep(net[j], net[p].role.peers[j], net[p].table))
  }

  /** What is left of the invariant when nobody acts as primary: every server holds
      p's table once it has replayed what it missed. */
  ghost predicate Reconcilable(net: Net, p: nat) {
    && p < |net|
    && Configured(net)
    && (forall j {:trigger Sound(net[j])} :: 0 <= j < |net| ==> Sound(net[j]))
    && net[p].deadLog == ""
    && (forall j :: 0 <= j < |net| && j != p ==> CatchesUp(net[j], net[p].table))
  }

  lemma AgreeingReconcilable(net: Net, p: nat)
    requires Agreeing(net, p)
    ensures Reconcilable(net, p)
  {
    forall j | 0 <= j < |net| && j != p
      ensures CatchesUp(net[j], net[p].table)
    {
      assert InStep(net[j], net[p].role.peers[j], net[p].table);
    }
  }

  /** A server that missed nothing has the table. */
  lemma CaughtUpSame(net: Net, p: nat, j: nat)
    requires Reconcilable(net, p) && j < |net| && net[j].deadLog == ""
    ensures Same(net[j].table, net[p].table)
  {
    NothingMissed(net[j]);
    assert j != p ==> CatchesUp(net[j], net[p].table);
  }

  /** A server has the table exactly when what it missed changes nothing there. */
  lemma MissedMatters(net: Net, p: nat, j: nat)
    requires Reconcilable(net, p) && j < |net|
    ensures Same(net[j].table, net[p].table) <==> Same(net[j].table, Replay(net[j].table, Missed(net[j])))
  {
    if j == p {
      NothingMissed(net[p]);
    } else {
      assert CatchesUp(net[j], net[p].table);
    }
  }

  /** Stated outright: the servers the primary holds alive have its table. */
  lemma LiveTablesAgree(net: Net, p: nat, j: nat)
    requires Agreeing(net, p) && j < |net| && (j == p || !net[p].role.peers[j].isDead)
    ensures Same(net[j].table, net[p].table)
  {
    if j != p {
      NothingMissed(net[j]);
    }
  }

  lemma NothingMissed(s: Server)
    requires s.deadLog == ""
    ensures Missed(s) == [] && Replay(s.table, Missed(s)) == s.table
  {
    assert Lines("") == [];
  }

  /** Every live secondary can be reached. */
  predicate Reachable(net: Net, p: nat, links: seq<Link>)
    requires Sized(net, p, links)
  {
    forall j :: 0 <= j < |net| && j != p && Live(net[p].role.peers[j]) ==> links[j].Up? && net[j].enabled
  }

  lemma AppendMissed(s: Server, cmd: Cmd)
    requires Terminated(s.deadLog, NEWLINE) && WellFormed(cmd)
    ensures
      var s' := s.(deadLog := AppendLine(s.deadLog, Print(cmd)));
      && Missed(s') == Missed(s) + [cmd]
      && Terminated(s'.deadLog, NEWLINE)
  {
    LogAppend(s.deadLog, cmd);
  }

  /** A live server that ran the command stays in step. */
  lemma ServedInStep(s: Server, s': Server, e: ServerInfo, cmd: Cmd, t: Table)
    requires InStep(s, e, t) && Live(e) && Durable(s) && WellFormed(cmd) && Served(s, cmd, s')
    ensures InStep(s', e, Apply(t, cmd)) && Durable(s') && Missed(s') == []
    ensures s'.role == s.role
  {
    ServedDurable(s, cmd, s');
    NothingMissed(s);
    NothingMissed(s');
    SameApply(s.table, t, cmd);
  }

  /** A dead server that got the command into its dead-server log stays in step. */
  lemma MissedInStep(s: Server, s': Server, e: ServerInfo, cmd: Cmd, t: Table)
    requires InStep(s, e, t) && Gone(e) && Durable(s) && AllLoggable(Missed(s)) && WellFormed(cmd)
    requires s' == s.(deadLog := AppendLine(s.deadLog, Print(cmd)))
    ensures InStep(s', e, Apply(t, cmd)) && Durable(s') && AllLoggable(Missed(s'))
  {
    AppendMissed(s, cmd);
    ReplaySnoc(s.table, Missed(s), cmd);
    SameApply(Replay(s.table, Missed(s)), t, cmd);
  }

  lemma InStepSame(s: Server, e: ServerInfo, t: Table, u: Table)
    requires InStep(s, e, t) && Same(t, u)
    ensures InStep(s, e, u)
  {
  }

  /** Under agreement every live secondary decides a command as the primary does. */
  lemma SameVerdict(net: Net, p: nat, cmd: Cmd, j: nat)
    requires Agreeing(net, p) && j < |net| && j != p && Live(net[p].role.peers[j])
    ensures Succeeds(net[j].table, cmd) == Succeeds(net[p].table, cmd)
  {
    LiveTablesAgree(net, p, j);
    SameApply(net[j].table, net[p].table, cmd);
  }

  /** The outcome of one server after a write whose effect on the primary is that
      of Apply, whether or not the loop got to it */
  lemma TouchedInStep(net: Net, net': Net, p: nat, cmd: Cmd, links: seq<Link>, j: nat)
    requires Agreeing(net, p) && Sized(net, p, links) && Reachable(net, p, links) && WellFormed(cmd)
    requires Spread(net, net', p, cmd, links) && j < |net| && j != p
    ensures InStep(net'[j], net[p].role.peers[j], Apply(net[p].table, cmd))
    ensures Sound(net'[j]) && net'[j].role == net[j].role
  {
    var peers := net[p].role.peers;
    var k := StopAt(net, peers, cmd, links, 0);
    var e := peers[j];
    assert Sound(net[j]) && InStep(net[j], e, net[p].table);
    assert Touched(net[j], net'[j], e, links[j], cmd, j, k);
    if j < k && Gone(e) {
      MissedInStep(net[j], net'[j], e, cmd, net[p].table);
    } else if j < k || (j == k && Live(e)) {
      ServedInStep(net[j], net'[j], e, cmd, net[p].table);
    } else {
      StopMeansFailure(net, p, cmd, links);
      FailedApplySame(net[p].table, cmd);
      InStepSame(net[j], e, net[p].table, Apply(net[p].table, cmd));
    }
  }

  /** If the loop stops although everyone can be reached, the command fails at the
      primary too. */
  lemma StopMeansFailure(net: Net, p: nat, cmd: Cmd, links: seq<Link>)
    requires Agreeing(net, p) && Sized(net, p, links) && Reachable(net, p, links)
    requires StopAt(net, net[p].role.peers, cmd, links, 0) < |net|
    ensures !Succeeds(net[p].table, cmd) && !ForwardResult(net, p, cmd, links)
  {
    var k := StopAt(net, net[p].role.peers, cmd, links, 0);
    assert k != p;
    SameVerdict(net, p, cmd, k);
  }

  lemma PrimaryAfterWrite(net: Net, net': Net, p: nat, cmd: Cmd, links: seq<Link>, reply: Reply)
    requires Agreeing(net, p) && Sized(net, p, links) && Reachable(net, p, links) && WellFormed(cmd)
    requires Coordinated(net, net', p, cmd, links, reply)
    ensures reply == if Succeeds(net[p].table, cmd) then Ok else Error
    ensures Same(net'[p].table, Apply(net[p].table, cmd))
    ensures Durable(net'[p]) && net'[p].role == net[p].role && net'[p].enabled == net[p].enabled
    ensures net'[p].deadLog == ""
  {
    assert Sound(net[p]);
    if StopAt(net, net[p].role.peers, cmd, links, 0) < |net| {
      StopMeansFailure(net, p, cmd, links);
      FailedApplySame(net[p].table, cmd);
      assert net'[p] == net[p];
    } else {
      ServedDurable(net[p], cmd, net'[p]);
    }
  }

  /** Server by server agreement makes the group's, when no role has changed. */
  lemma Reassemble(net: Net, net': Net, p: nat)
    requires Agreeing(net, p) && |net'| == |net|
    requires forall j :: 0 <= j < |net| ==> net'[j].role == net[j].role
    requires forall j {:trigger Sound(net'[j])} :: 0 <= j < |net| ==> Sound(net'[j])
    requires net'[p].deadLog == ""
    requires forall j :: 0 <= j < |net| && j != p ==> InStep(net'[j], net[p].role.peers[j], net'[p].table)
    ensures Agreeing(net', p)
  {
  }

  /** A write keeps the agreement, and is acknowledged exactly when it succeeds on
      the primary's table; acknowledged or not, the primary's table afterwards is
      that of Apply. */
  lemma WriteKeepsAgreement(net: Net, net': Net, p: nat, cmd: Cmd, links: seq<Link>, reply: Reply)
    requires Agreeing(net, p) && Sized(net, p, links) && Reachable(net, p, links) && WellFormed(cmd)
    requires Coordinated(net, net', p, cmd, links, reply)
    ensures Agreeing(net', p)
    ensures reply == if Succeeds(net[p].table, cmd) then Ok else Error
    ensures Same(net'[p].table, Apply(net[p].table, cmd))
  {
    PrimaryAfterWrite(net, net', p, cmd, links, reply);
    NothingMissed(net'[p]);
    forall j | 0 <= j < |net| && j != p
      ensures InStep(net'[j], net[p].role.peers[j], net'[p].table)
      ensures Sound(net'[j]) && net'[j].role == net[j].role
    {
      TouchedInStep(net, net', p, cmd, links, j);
      InStepSame(net'[j], net[p].role.peers[j], Apply(net[p].table, cmd), net'[p].table);
    }
    Reassemble(net, net', p);
  }

  /** A conditional write is applied by the primary and by every live secondary,
      or by none of them. */
  lemma CputAllOrNone(net: Net, net': Net, p: nat, cmd: Cmd, links: seq<Link>, reply: Reply, j: nat)
    requires Agreeing(net, p) && Sized(net, p, links) && Reachable(net, p, links) && WellFormed(cmd) && cmd.Cput?
    requires Coordinated(net, net', p, cmd, links, reply)
    requires j < |net| && (j == p || Live(net[p].role.peers[j]))
    ensures reply == Ok <==> Lookup(net[j].table, cmd.row, cmd.col) == cmd.expected
    ensures reply == Ok ==> Lookup(net'[j].table, cmd.row, cmd.col) == cmd.value
    ensures reply != Ok ==> Same(net'[j].table, net[j].table)
  {
    WriteKeepsAgreement(net, net', p, cmd, links, reply);
    LiveTablesAgree(net, p, j);
    LiveTablesAgree(net', p, j);
    SameApply(net[j].table, net[p].table, cmd);
    if reply == Ok {
      ApplyEffect(net[p].table, cmd, cmd.row, cmd.col);
      assert Lookup(net'[j].table, cmd.row, cmd.col) == Lookup(net'[p].table, cmd.row, cmd.col);
    } else {
      FailedApplySame(net[p].table, cmd);
    }
  }

  // ---- Writes that reach only part of the group ----

  /** The loop stopped at k before it had come to any server but p. */
  predicate NobodyBefore(k: nat, p: nat) {
    k == 0 || (k == 1 && p == 0)
  }

  /** A write whose loop stopped early leaves the group in agreement exactly if it
      changes nothing anywhere or was refused before any other server had seen it. A
      conditional write that fails changes nothing. A socket that cannot be created
      is worse than a refused connection: the write is then carried out, and
      acknowledged. */
  lemma PartialWriteAgreement(net: Net, net': Net, p: nat, cmd: Cmd, links: seq<Link>, reply: Reply)
    requires Agreeing(net, p) && Sized(net, p, links) && WellFormed(cmd)
    requires Coordinated(net, net', p, cmd, links, reply)
    requires StopAt(net, net[p].role.peers, cmd, links, 0) < |net|
    ensures
      var k := StopAt(net, net[p].role.peers, cmd, links, 0);
      Agreeing(net', p) <==> ChangesNothing(net[p].table, cmd) || (!links[k].NoSocket? && NobodyBefore(k, p))
  {
    var k := StopAt(net, net[p].role.peers, cmd, links, 0);
    PartialPrimary(net, net', p, cmd, links, reply);
    if !Succeeds(net[p].table, cmd) {
      FailedApplySame(net[p].table, cmd);
    }
    if ChangesNothing(net[p].table, cmd) || (!links[k].NoSocket? && NobodyBefore(k, p)) {
      PartialStillAgrees(net, net', p, cmd, links, reply);
    } else if Agreeing(net', p) {
      if links[k].NoSocket? {
        AckedPartly(net, net', p, cmd, links);
      } else {
        RefusedPartly(net, net', p, cmd, links);
      }
    }
  }

  lemma PartialPrimary(net: Net, net': Net, p: nat, cmd: Cmd, links: seq<Link>, reply: Reply)
    requires Agreeing(net, p) && Sized(net, p, links) && WellFormed(cmd)
    requires Coordinated(net, net', p, cmd, links, reply)
    requires StopAt(net, net[p].role.peers, cmd, links, 0) < |net|
    ensures
      var k := StopAt(net, net[p].role.peers, cmd, links, 0);
      && k != p && Live(net[p].role.peers[k])
      && net'[p].table == if links[k].NoSocket? then Apply(net[p].table, cmd) else net[p].table
    ensures Sound(net'[p]) && net'[p].role == net[p].role && net'[p].deadLog == ""
  {
    assert Sound(net[p]);
    NothingMissed(net[p]);
    if ForwardResult(net, p, cmd, links) {
      ServedDurable(net[p], cmd, net'[p]);
      NothingMissed(net'[p]);
    } else {
      SettledNothing(net[p], net'[p]);
    }
  }

  lemma SettledNothing(s: Server, s': Server)
    requires Sound(s) && Settled(s, s')
    ensures s' == s
  {
  }

  /** A server that stops a write the primary would accept has not run it. */
  lemma StopUntouched(net: Net, net': Net, p: nat, cmd: Cmd, links: seq<Link>)
    requires Agreeing(net, p) && Sized(net, p, links) && Spread(net, net', p, cmd, links)
    requires Succeeds(net[p].table, cmd)
    requires StopAt(net, net[p].role.peers, cmd, links, 0) < |net|
    ensures
      var k := StopAt(net, net[p].role.peers, cmd, links, 0);
      k != p && Live(net[p].role.peers[k]) && net'[k] == net[k]
  {
    var k := StopAt(net, net[p].role.peers, cmd, links, 0);
    assert k != p;
    SameVerdict(net, p, cmd, k);
    assert Touched(net[k], net'[k], net[p].role.peers[k], links[k], cmd, k, k);
  }

  lemma AckedPartly(net: Net, net': Net, p: nat, cmd: Cmd, links: seq<Link>)
    requires Agreeing(net, p) && Sized(net, p, links) && Agreeing(net', p) && Spread(net, net', p, cmd, links)
    requires StopAt(net, net[p].role.peers, cmd, links, 0) < |net| && Succeeds(net[p].table, cmd)
    requires net'[p].table == Apply(net[p].table, cmd) && net'[p].role == net[p].role
    ensures ChangesNothing(net[p].table, cmd)
  {
    var k := StopAt(net, net[p].role.peers, cmd, links, 0);
    StopUntouched(net, net', p, cmd, links);
    LiveTablesAgree(net, p, k);
    LiveTablesAgree(net', p, k);
  }

  lemma RefusedPartly(net: Net, net': Net, p: nat, cmd: Cmd, links: seq<Link>)
    requires Agreeing(net, p) && Sized(net, p, links) && WellFormed(cmd) && Agreeing(net', p)
    requires Spread(net, net', p, cmd, links) && net'[p].table == net[p].table && net'[p].role == net[p].role
    requires !NobodyBefore(StopAt(net, net[p].role.peers, cmd, links, 0), p)
    ensures ChangesNothing(net[p].table, cmd)
  {
    var j := if p == 0 then 1 else 0;
    PassedInStep(net, net', p, cmd, links, j);
    assert InStep(net'[j], net'[p].role.peers[j], net'[p].table);
  }

  lemma PassedInStep(net: Net, net': Net, p: nat, cmd: Cmd, links: seq<Link>, j: nat)
    requires Agreeing(net, p) && Sized(net, p, links) && WellFormed(cmd)
    requires Spread(net, net', p, cmd, links)
    requires j < StopAt(net, net[p].role.peers, cmd, links, 0) && j != p
    ensures InStep(net'[j], net[p].role.peers[j], Apply(net[p].table, cmd))
    ensures Sound(net'[j]) && net'[j].role == net[j].role
  {
    var e := net[p].role.peers[j];
    assert Sound(net[j]) && InStep(net[j], e, net[p].table);
    if Gone(e) {
      MissedInStep(net[j], net'[j], e, cmd, net[p].table);
    } else {
      ServedInStep(net[j], net'[j], e, cmd, net[p].table);
    }
  }

  lemma PartialStillAgrees(net: Net, net': Net, p: nat, cmd: Cmd, links: seq<Link>, reply: Reply)
    requires Agreeing(net, p) && Sized(net, p, links) && WellFormed(cmd)
    requires Coordinated(net, net', p, cmd, links, reply)
    requires StopAt(net, net[p].role.peers, cmd, links, 0) < |net|
    requires
      var k := StopAt(net, net[p].role.peers, cmd, links, 0);
      ChangesNothing(net[p].table, cmd) || (!links[k].NoSocket? && NobodyBefore(k, p))
    ensures Agreeing(net', p)
  {
    PartialPrimary(net, net', p, cmd, links, reply);
    forall j | 0 <= j < |net| && j != p
      ensures InStep(net'[j], net[p].role.peers[j], net'[p].table) && Sound(net'[j]) && net'[j].role == net[j].role
    {
      if !Succeeds(net[p].table, cmd) {
        FailedApplySame(net[p].table, cmd);
      }
      if ChangesNothing(net[p].table, cmd) {
        UnchangedEntry(net, net', p, cmd, links, net'[p].table, j);
      } else {
        UnseenEntry(net, net', p, cmd, links, j);
      }
    }
    Reassemble(net, net', p);
  }

  /** A command that changes nothing may have reached a server or not. */
  lemma UnchangedEntry(net: Net, net': Net, p: nat, cmd: Cmd, links: seq<Link>, t: Table, j: nat)
    requires Agreeing(net, p) && Sized(net, p, links) && WellFormed(cmd)
    requires Spread(net, net', p, cmd, links) && j < |net| && j != p
    requires StopAt(net, net[p].role.peers, cmd, links, 0) < |net|
    requires Same(net[p].table, t) && ChangesNothing(net[p].table, cmd)
    ensures InStep(net'[j], net[p].role.peers[j], t) && Sound(net'[j]) && net'[j].role == net[j].role
  {
    var k, e := StopAt(net, net[p].role.peers, cmd, links, 0), net[p].role.peers[j];
    assert Touched(net[j], net'[j], e, links[j], cmd, j, k);
    assert Sound(net[j]) && InStep(net[j], e, net[p].table);
    if j < k {
      PassedInStep(net, net', p, cmd, links, j);
      InStepSame(net'[j], e, Apply(net[p].table, cmd), t);
    } else if net'[j] == net[j] {
      InStepSame(net[j], e, net[p].table, t);
    } else {
      ServedInStep(net[j], net'[j], e, cmd, net[p].table);
      InStepSame(net'[j], e, Apply(net[p].table, cmd), t);
    }
  }

  /** A write that stopped before any other server had seen it left them as they
      were. */
  lemma UnseenEntry(net: Net, net': Net, p: nat, cmd: Cmd, links: seq<Link>, j: nat)
    requires Agreeing(net, p) && Sized(net, p, links) && Succeeds(net[p].table, cmd)
    requires Spread(net, net', p, cmd, links) && j < |net| && j != p
    requires StopAt(net, net[p].role.peers, cmd, links, 0) < |net|
    requires NobodyBefore(StopAt(net, net[p].role.peers, cmd, links, 0), p)
    ensures InStep(net'[j], net[p].role.peers[j], net[p].table) && Sound(net'[j]) && net'[j].role == net[j].role
  {
    var k := StopAt(net, net[p].role.peers, cmd, links, 0);
    assert Touched(net[j], net'[j], net[p].role.peers[j], links[j], cmd, j, k);
    assert Sound(net[j]) && InStep(net[j], net[p].role.peers[j], net[p].table);
    StopUntouched(net, net', p, cmd, links);
  }

  // ---- Repeating a write that stopped half-way ----

  /** Whatever became of a write, a server has caught up with the table from before
      or with the one from after. */
  lemma AttemptLeaves(net: Net, net1: Net, p: nat, cmd: Cmd, links: seq<Link>, j: nat) returns (t: Table)
    requires Agreeing(net, p) && Sized(net, p, links) && WellFormed(cmd)
    requires Spread(net, net1, p, cmd, links) && j < |net| && j != p
    ensures t == net[p].table || t == Apply(net[p].table, cmd)
    ensures InStep(net1[j], net[p].role.peers[j], t) && Sound(net1[j]) && net1[j].role == net[j].role
  {
    var k, e := StopAt(net, net[p].role.peers, cmd, links, 0), net[p].role.peers[j];
    assert Touched(net[j], net1[j], e, links[j], cmd, j, k);
    assert Sound(net[j]) && InStep(net[j], e, net[p].table);
    if j < k {
      PassedInStep(net, net1, p, cmd, links, j);
      t := Apply(net[p].table, cmd);
    } else if net1[j] == net[j] {
      t := net[p].table;
    } else {
      ServedInStep(net[j], net1[j], e, cmd, net[p].table);
      t := Apply(net[p].table, cmd);
    }
  }

  lemma AttemptLeavesPrimary(net: Net, net1: Net, p: nat, cmd: Cmd, links: seq<Link>, reply: Reply)
    requires Agreeing(net, p) && Sized(net, p, links) && WellFormed(cmd)
    requires Coordinated(net, net1, p, cmd, links, reply)
    ensures net1[p].table == net[p].table || net1[p].table == Apply(net[p].table, cmd)
    ensures Sound(net1[p]) && net1[p].role == net[p].role && net1[p].deadLog == ""
  {
    assert Sound(net[p]);
    NothingMissed(net[p]);
    if ForwardResult(net, p, cmd, links) {
      ServedDurable(net[p], cmd, net1[p]);
      NothingMissed(net1[p]);
    } else {
      SettledNothing(net[p], net1[p]);
    }
  }

  /** Writing outright twice is writing once. */
  lemma WrittenTwice(t: Table, u: Table, cmd: Cmd)
    requires (cmd.Put? || cmd.Delete?) && (u == t || u == Apply(t, cmd))
    ensures Same(Apply(u, cmd), Apply(t, cmd))
  {
    forall r, c
      ensures Lookup(Apply(u, cmd), r, c) == Lookup(Apply(t, cmd), r, c)
    {
      ApplyEffect(t, cmd, r, c);
      ApplyEffect(u, cmd, r, c);
    }
  }

  /** A server after the second attempt has caught up with the table with the write. */
  lemma RepeatedEntry(net: Net, net1: Net, net2: Net, p: nat, cmd: Cmd, links: seq<Link>, links2: seq<Link>, j: nat)
    requires Agreeing(net, p) && Sized(net, p, links) && WellFormed(cmd) && !cmd.Cput?
    requires Spread(net, net1, p, cmd, links) && |net1| == |net| && net1[p].role == net[p].role
    requires Sized(net1, p, links2) && Spread(net1, net2, p, cmd, links2)
    requires StopAt(net1, net1[p].role.peers, cmd, links2, 0) == |net1|
    requires j < |net| && j != p
    ensures InStep(net2[j], net[p].role.peers[j], Apply(net[p].table, cmd))
    ensures Sound(net2[j]) && net2[j].role == net[j].role
  {
    var e := net[p].role.peers[j];
    var t := AttemptLeaves(net, net1, p, cmd, links, j);
    assert Touched(net1[j], net2[j], e, links2[j], cmd, j, |net1|);
    if Gone(e) {
      MissedInStep(net1[j], net2[j], e, cmd, t);
    } else {
      ServedInStep(net1[j], net2[j], e, cmd, t);
    }
    WrittenTwice(net[p].table, t, cmd);
    InStepSame(net2[j], e, Apply(t, cmd), Apply(net[p].table, cmd));
  }

  /** A PUT or DELETE that stopped anywhere is repaired by repeating it once everybody
      held alive can be reached. */
  lemma RepeatRepairs(net: Net, net1: Net, net2: Net, p: nat, cmd: Cmd, links: seq<Link>, links2: seq<Link>,
                      reply: Reply, reply2: Reply)
    requires Agreeing(net, p) && Sized(net, p, links) && WellFormed(cmd) && !cmd.Cput?
    requires Coordinated(net, net1, p, cmd, links, reply)
    requires Sized(net1, p, links2) && Reachable(net1, p, links2) && Coordinated(net1, net2, p, cmd, links2, reply2)
    ensures reply2 == Ok && Agreeing(net2, p) && Same(net2[p].table, Apply(net[p].table, cmd))
  {
    AttemptLeavesPrimary(net, net1, p, cmd, links, reply);
    var k := StopAt(net1, net1[p].role.peers, cmd, links2, 0);
    assert k == |net1|;
    ServedDurable(net1[p], cmd, net2[p]);
    NothingMissed(net2[p]);
    WrittenTwice(net[p].table, net1[p].table, cmd);
    forall j | 0 <= j < |net| && j != p
      ensures InStep(net2[j], net[p].role.peers[j], net2[p].table) && Sound(net2[j]) && net2[j].role == net[j].role
    {
      RepeatedEntry(net, net1, net2, p, cmd, links, links2, j);
      InStepSame(net2[j], net[p].role.peers[j], Apply(net[p].table, cmd), net2[p].table);
    }
    Reassemble(net, net2, p);
  }

  /** The primary still holds the value a conditional write expects, and a server it
      holds alive has written the new one already. */
  ghost predicate Stuck(net: Net, p: nat, cmd: Cmd) {
    && p < |net| && cmd.Cput? && WellFormed(cmd) && cmd.expected != cmd.value
    && Durable(net[p]) && Lookup(net[p].table, cmd.row, cmd.col) == cmd.expected
    && exists j :: StuckAt(net, p, cmd, j)
  }

  ghost predicate StuckAt(net: Net, p: nat, cmd: Cmd, j: int) {
    && 0 <= j < |net| && p < |net| == |net[p].role.peers| && j != p && Live(net[p].role.peers[j])
    && cmd.Cput? && Durable(net[j]) && Lookup(net[j].table, cmd.row, cmd.col) == cmd.value
  }

  /** Such a group does not agree. */
  lemma StuckDisagrees(net: Net, p: nat, cmd: Cmd)
    requires Stuck(net, p, cmd)
    ensures !Agreeing(net, p)
  {
    var j :| StuckAt(net, p, cmd, j);
    if Agreeing(net, p) {
      LiveTablesAgree(net, p, j);
    }
  }

  /** A conditional write that stopped behind a live secondary gets the group stuck. */
  lemma PartialCputSticks(net: Net, net1: Net, p: nat, cmd: Cmd, links: seq<Link>, reply: Reply, j: nat)
    requires Agreeing(net, p) && Sized(net, p, links) && WellFormed(cmd)
    requires cmd.Cput? && cmd.expected != cmd.value && Succeeds(net[p].table, cmd)
    requires Coordinated(net, net1, p, cmd, links, reply) && !ForwardResult(net, p, cmd, links)
    requires j < StopAt(net, net[p].role.peers, cmd, links, 0) && j != p && Live(net[p].role.peers[j])
    ensures Stuck(net1, p, cmd)
  {
    assert Sound(net[p]) && Sound(net[j]);
    SettledNothing(net[p], net1[p]);
    PassedInStep(net, net1, p, cmd, links, j);
    WrittenValue(net1[j], net[p].role.peers[j], net[p].table, cmd);
    assert StuckAt(net1, p, cmd, j);
  }

  lemma WrittenValue(s: Server, e: ServerInfo, t: Table, cmd: Cmd)
    requires InStep(s, e, Apply(t, cmd)) && Live(e) && cmd.Cput? && Succeeds(t, cmd)
    ensures Lookup(s.table, cmd.row, cmd.col) == cmd.value
  {
    NothingMissed(s);
    ApplyEffect(t, cmd, cmd.row, cmd.col);
    assert Lookup(s.table, cmd.row, cmd.col) == Lookup(Apply(t, cmd), cmd.row, cmd.col);
  }

  /** Repeating it is refused and leaves the group stuck, whoever can be reached. */
  lemma StuckStays(net: Net, net': Net, p: nat, cmd: Cmd, links: seq<Link>, reply: Reply)
    requires Stuck(net, p, cmd) && Sized(net, p, links) && Coordinated(net, net', p, cmd, links, reply)
    requires forall i :: 0 <= i < |links| ==> !links[i].NoSocket?
    ensures reply == Error && Stuck(net', p, cmd) && net'[p] == net[p]
  {
    var k := StopAt(net, net[p].role.peers, cmd, links, 0);
    var j :| StuckAt(net, p, cmd, j);
    assert k <= j;
    assert Touched(net[j], net'[j], net[p].role.peers[j], links[j], cmd, j, k);
    if net'[j] != net[j] {
      ServedDurable(net[j], cmd, net'[j]);
      FailedApplySame(net[j].table, cmd);
      assert Lookup(net'[j].table, cmd.row, cmd.col) == Lookup(net[j].table, cmd.row, cmd.col);
    }
    assert StuckAt(net', p, cmd, j);
  }

  ghost predicate Attempted(net: Net, net': Net, p: nat, cmd: Cmd, links: seq<Link>, reply: Reply) {
    && Sized(net, p, links) && Coordinated(net, net', p, cmd, links, reply)
    && forall i :: 0 <= i < |links| ==> !links[i].NoSocket?
  }

  /** nets[i + 1] is what the i-th repetition leaves of nets[i]. */
  datatype Repetition = Repetition(nets: seq<Net>, links: seq<seq<Link>>, replies: seq<Reply>)

  ghost predicate AttemptAt(r: Repetition, p: nat, cmd: Cmd, i: nat) {
    && i < |r.links| && i + 1 < |r.nets| && i < |r.replies|
    && Attempted(r.nets[i], r.nets[i + 1], p, cmd, r.links[i], r.replies[i])
  }

  ghost predicate Repeats(r: Repetition, p: nat, cmd: Cmd) {
    |r.nets| == |r.links| + 1 && forall i: nat :: i < |r.links| ==> AttemptAt(r, p, cmd, i)
  }

  lemma StuckStep(r: Repetition, p: nat, cmd: Cmd, i: nat)
    requires Repeats(r, p, cmd) && i < |r.links| && Stuck(r.nets[i], p, cmd)
    ensures Stuck(r.nets[i + 1], p, cmd) && i < |r.replies| && r.replies[i] == Error
  {
    assert AttemptAt(r, p, cmd, i);
    StuckOnce(r.nets[i], r.nets[i + 1], p, cmd, r.links[i], r.replies[i]);
  }

  lemma {:induction false} StuckUntil(r: Repetition, p: nat, cmd: Cmd, n: nat)
    requires Repeats(r, p, cmd) && Stuck(r.nets[0], p, cmd) && n <= |r.links|
    ensures Stuck(r.nets[n], p, cmd)
  {
    if n > 0 {
      StuckUntil(r, p, cmd, n - 1);
      StuckStep(r, p, cmd, n - 1);
    }
  }

  /** Over any number of repetitions the group stays stuck, and so every one of them
      is refused. */
  lemma StuckForever(r: Repetition, p: nat, cmd: Cmd, n: nat)
    requires Repeats(r, p, cmd) && Stuck(r.nets[0], p, cmd) && n <= |r.links|
    ensures Stuck(r.nets[n], p, cmd)
    ensures n < |r.links| ==> n < |r.replies| && r.replies[n] == Error
  {
    StuckUntil(r, p, cmd, n);
    if n < |r.links| {
      StuckStep(r, p, cmd, n);
    }
  }

  lemma StuckOnce(net: Net, net': Net, p: nat, cmd: Cmd, links: seq<Link>, reply: Reply)
    requires Stuck(net, p, cmd) && Attempted(net, net', p, cmd, links, reply)
    ensures Stuck(net', p, cmd) && reply == Error
  {
    StuckStays(net, net', p, cmd, links, reply);
  }

  // ---- Writes sent on by a secondary ----

  lemma UniqueAddr(net: Net, p: nat)
    requires Configured(net) && p < |net|
    ensures FindAddr(net, net[p].role.me.addr) == p
  {
    var q := FindAddr(net, net[p].role.me.addr);
    assert q <= p;
  }

  /** A write sent on by a secondary that knows the primary. The secondary answers OK
      when it cannot reach the primary, and then the write is lost unless it would
      have changed nothing. */
  lemma RelayedExact(net: Net, net': Net, p: nat, i: nat, cmd: Cmd, toPrimary: Link, links: seq<Link>, reply: Reply)
    requires Agreeing(net, p) && Sized(net, p, links) && Reachable(net, p, links) && WellFormed(cmd)
    requires i < |net| && net[i].role.primaryInfo.addr == net[p].role.me.addr
    requires Relayed(net, net', i, cmd, toPrimary, links, reply)
    ensures Agreeing(net', p)
    ensures reply == Ok <==> !toPrimary.Up? || (net[p].enabled && Succeeds(net[p].table, cmd))
    ensures Same(net'[p].table, Apply(net[p].table, cmd))
       <==> (toPrimary.Up? && net[p].enabled) || ChangesNothing(net[p].table, cmd)
  {
    UniqueAddr(net, p);
    if toPrimary.Up? && net[p].enabled {
      WriteKeepsAgreement(net, net', p, cmd, links, reply);
    }
  }
}

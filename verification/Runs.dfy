/** Whole runs of one replica group: client requests, status messages, disabling,
    restarts and failovers, one after the other. */
module Runs {
  import opened Optional
  import opened Text
  import opened Store
  import opened Wire
  import opened Disk
  import opened Status
  import opened Recovery
  import opened Cluster
  import opened Answers

  // ---- The events of a run ----

  /** Write and Read arrive from a frontend at server i. Query is any line at an enabled
      server that is no write, Refused any line at a disabled one. Tell is any status
      message to server i, Elect one that makes q the acting primary. Restart is a new
      process on the files of i. */
  datatype Event =
    | Write(i: nat, cmd: Cmd, links: seq<Link>)
    | Read(i: nat, row: string, col: string)
    | Query(i: nat, line: string)
    | Refused(i: nat, line: string)
    | Tell(i: nat, text: string)
    | Disable(i: nat)
    | Enable(i: nat)
    | Restart(i: nat, role: Local)
    | Elect(q: nat, text: string)

  /** Whose table counts, and whether that server acts as primary */
  datatype Lead = Lead(p: nat, acting: bool)

  ghost predicate Kept(net: Net, l: Lead) {
    Reconcilable(net, l.p) && (l.acting ==> Agreeing(net, l.p))
  }

  /** A frontend's write reaches the acting primary p, directly or through a
      secondary that knows it, and p reaches its live secondaries. */
  ghost predicate CanWrite(net: Net, p: nat, i: nat, cmd: Cmd, links: seq<Link>) {
    && WellFormed(cmd) && (cmd.Delete? || LastField(cmd) !in {TAG_PRIMARY, TAG_SECONDARY})
    && i < |net| && p < |net| && net[i].enabled && net[p].enabled
    && (i != p ==> !net[i].role.me.isPrimary && net[i].role.primaryInfo.addr == net[p].role.me.addr)
    && Sized(net, p, links) && Reachable(net, p, links)
  }

  /** A read is answered by a server that has missed nothing, as every server the
      acting primary holds alive has. */
  ghost predicate CanRead(net: Net, i: nat, row: string, col: string) {
    && i < |net| && net[i].enabled && net[i].deadLog == ""
    && PlainText(row) && PlainText(col) && col != ""
  }

  ghost predicate CaughtUp(s: Server) {
    s.deadLog == "" && !s.role.me.isPrimary
  }

  /** The messages after which p still acts as primary in agreement with the group.
      Nobody p holds alive is made primary; p itself is neither demoted, nor buried,
      nor taken for its own secondary; and whoever p takes for alive has emptied its
      dead-server log and is not primary. */
  ghost predicate CanHear(net: Net, p: nat, i: nat, m: Message) {
    && i < |net| && p < |net| && |net[p].role.peers| == |net|
    && if i != p then m.BePrimary? ==> net[p].role.peers[i].isDead
       else
         && !m.BeSecondary?
         && (m.BePrimary? ==>
               && m.dead != Just(net[p].role.me.addr) && m.newSecondary != Just(net[p].role.me.addr)
               && forall j ::
                    0 <= j < |net| && m.newSecondary == Just(net[j].role.me.addr) && m.dead != m.newSecondary ==>
                      CaughtUp(net[j]))
  }

  /** The message makes q acting primary in agreement with the group: q has missed
      nothing, and of the others, the one named dead apart, it flags none as primary
      and holds alive only such as are caught up. */
  ghost predicate CanElect(net: Net, q: nat, m: Message) {
    && q < |net| && |net[q].role.peers| == |net|
    && m.BePrimary? && m.newSecondary.Nothing? && m.dead != Just(net[q].role.me.addr)
    && net[q].deadLog == ""
    && forall j :: 0 <= j < |net| && j != q && m.dead != Just(net[j].role.me.addr) ==>
         && !net[q].role.peers[j].isPrimary
         && (!net[q].role.peers[j].isDead ==> CaughtUp(net[j]))
  }

  function Informed(net: Net, i: nat, text: string): Net
    requires i < |net|
  {
    net[i := net[i].(role := Receive(net[i].role, text))]
  }

  ghost predicate Step(net: Net, l: Lead, e: Event, reply: Reply, net': Net, l': Lead) {
    match e
    case Write(i, cmd, links) =>
      l.acting && CanWrite(net, l.p, i, cmd, links) && l' == l && Requested(net, net', i, Print(cmd), Up, links, reply)
    case Read(i, row, col) =>
      CanRead(net, i, row, col) && l' == l && Requested(net, net', i, Print(Get(row, col)), Up, [], reply)
    case Query(i, line) =>
      && i < |net| && net[i].enabled && !CmdOf(line).IsWrite() && l' == l
      && Requested(net, net', i, line, Up, [], reply)
    case Refused(i, line) =>
      i < |net| && !net[i].enabled && l' == l && Requested(net, net', i, line, Up, [], reply)
    case Tell(i, text) =>
      i < |net| && net' == Informed(net, i, text) && l' == Lead(l.p, l.acting && CanHear(net, l.p, i, Parse(text)))
    case Disable(i) =>
      i < |net| && l' == l && net' == net[i := net[i].(enabled := false)]
    case Enable(i) =>
      && i < |net| && l' == l && OnlyAt(net, net', i)
      && if net[i].enabled then net'[i] == net[i] else Initialized(net[i].(enabled := true), net'[i])
    case Restart(i, role) =>
      && i < |net| && l' == Lead(l.p, l.acting && i != l.p) && OnlyAt(net, net', i)
      && SameConfiguration(net[i].role, role) && !role.me.isPrimary
      && Initialized(Restarted(net[i], role), net'[i])
    case Elect(q, text) =>
      CanElect(net, q, Parse(text)) && l' == Lead(q, true) && net' == Informed(net, q, text)
  }

  ghost predicate SameConfiguration(l: Local, l': Local) {
    && l'.me.addr == l.me.addr && |l'.peers| == |l.peers|
    && forall j :: 0 <= j < |l.peers| ==> l'.peers[j].addr == l.peers[j].addr
  }

  // ---- Each step keeps the agreement ----

  lemma PrintedWrite(cmd: Cmd)
    requires WellFormed(cmd) && (cmd.Delete? || LastField(cmd) !in {TAG_PRIMARY, TAG_SECONDARY})
    ensures CmdOf(Print(cmd)) == cmd && OriginOf(SplitKVStoreCommand(Print(cmd))) == FromFrontend
  {
    LineRoundTrip(cmd);
    ClientOrigin(cmd);
  }

  lemma SettledDurable(s: Server, s': Server)
    requires Durable(s) && Settled(s, s')
    ensures s' == s
  {
  }

  /** A client's write at server i: coordinated there or relayed. */
  lemma RequestedWrite(net: Net, net': Net, i: nat, cmd: Cmd, links: seq<Link>, reply: Reply) returns (mid: Net)
    requires i < |net| && net[i].enabled && cmd.IsWrite()
    requires CmdOf(Print(cmd)) == cmd && OriginOf(SplitKVStoreCommand(Print(cmd))) == FromFrontend
    requires Requested(net, net', i, Print(cmd), Up, links, reply)
    ensures net[i].role.me.isPrimary ==> Sized(net, i, links) && Coordinated(net, net', i, cmd, links, reply)
    ensures !net[i].role.me.isPrimary ==>
      Relayed(net, mid, i, cmd, Up, links, reply) && |mid| == |net| && OnlyAt(mid, net', i) && Settled(mid[i], net'[i])
  {
    mid := net;
    if !net[i].role.me.isPrimary {
      mid :| Relayed(net, mid, i, cmd, Up, links, reply) && |mid| == |net| && OnlyAt(mid, net', i)
             && Settled(mid[i], net'[i]);
    }
  }

  /** Through whichever server it arrives, a write is coordinated by p. */
  lemma WriteStep(net: Net, p: nat, i: nat, cmd: Cmd, links: seq<Link>, reply: Reply, net': Net)
    requires Agreeing(net, p) && CanWrite(net, p, i, cmd, links)
    requires Requested(net, net', i, Print(cmd), Up, links, reply)
    ensures Coordinated(net, net', p, cmd, links, reply)
  {
    PrintedWrite(cmd);
    var mid := RequestedWrite(net, net', i, cmd, links, reply);
    if i != p {
      UniqueAddr(net, p);
      RelayedIsCoordinated(net, mid, p, i, cmd, links, reply);
      RelayLeavesNoTrace(net, mid, net', p, i, cmd, links, reply);
    }
  }

  /** The relaying server's own checkpoint test does nothing. */
  lemma RelayLeavesNoTrace(net: Net, mid: Net, net': Net, p: nat, i: nat, cmd: Cmd, links: seq<Link>, reply: Reply)
    requires Agreeing(net, p) && Sized(net, p, links) && Reachable(net, p, links) && WellFormed(cmd)
    requires Coordinated(net, mid, p, cmd, links, reply) && i < |net|
    requires |mid| == |net| && OnlyAt(mid, net', i) && Settled(mid[i], net'[i])
    ensures net' == mid
  {
    WriteKeepsAgreement(net, mid, p, cmd, links, reply);
    assert Sound(mid[i]);
    SettledDurable(mid[i], net'[i]);
  }

  lemma RelayedIsCoordinated(net: Net, mid: Net, p: nat, i: nat, cmd: Cmd, links: seq<Link>, reply: Reply)
    requires CanWrite(net, p, i, cmd, links) && i != p && net[p].role.me.isPrimary
    requires FindAddr(net, net[p].role.me.addr) == p
    requires Relayed(net, mid, i, cmd, Up, links, reply)
    ensures Coordinated(net, mid, p, cmd, links, reply)
  {
  }

  lemma ReadLine(row: string, col: string)
    requires PlainText(row) && PlainText(col) && col != ""
    ensures SplitKVStoreCommand(Print(Get(row, col))) == ["GET ", row, col]
    ensures Decode(["GET ", row, col]) == Get(row, col)
  {
    VerbSplit(Get(row, col), Commas([row, col]));
    assert Fields(Get(row, col)) == [row, col];
    PairPieces(row, col);
  }

  lemma PairPieces(row: string, col: string)
    requires PlainText(row) && PlainText(col) && col != ""
    ensures Pieces(Commas([row, col]), ',') == [row, col]
  {
    PiecesOfJoin([row, col], ',');
  }

  /** A read changes nothing and answers from the table of the server asked. */
  lemma ReadStep(net: Net, p: nat, i: nat, row: string, col: string, reply: Reply, net': Net)
    requires Reconcilable(net, p) && CanRead(net, i, row, col)
    requires Requested(net, net', i, Print(Get(row, col)), Up, [], reply)
    ensures net' == net && reply == GetReply(net[i].table, row, col)
  {
    ReadLine(row, col);
    assert Sound(net[i]);
    SettledDurable(net[i], net'[i]);
  }

  /** Agreement after one server changed. */
  lemma ReplaceOne(net: Net, p: nat, i: nat, s: Server)
    requires Agreeing(net, p) && i < |net| && Sound(s)
    requires SameConfiguration(net[i].role, s.role)
    requires
      if i == p then
        && s.role.me.isPrimary && s.role.peers[p].isPrimary && s.deadLog == ""
        && forall j :: 0 <= j < |net| && j != p ==> InStep(net[j], s.role.peers[j], s.table)
      else
        InStep(s, net[p].role.peers[i], net[p].table)
    ensures Agreeing(net[i := s], p)
  {
    OthersSound(net, i, s);
    SameNames(net, i, s);
  }

  ghost predicate AllSound(net: Net) {
    forall j {:trigger Sound(net[j])} :: 0 <= j < |net| ==> Sound(net[j])
  }

  lemma OthersSound(net: Net, i: nat, s: Server)
    requires i < |net| && Sound(s) && AllSound(net)
    ensures AllSound(net[i := s])
  {
    var net' := net[i := s];
    forall j | 0 <= j < |net|
      ensures Sound(net'[j])
    {
      assert j != i ==> Sound(net[j]);
    }
  }

  /** What is left of it after one server changed, whatever its role now is */
  lemma ReplaceKept(net: Net, p: nat, i: nat, s: Server)
    requires Reconcilable(net, p) && i < |net| && Sound(s)
    requires SameConfiguration(net[i].role, s.role)
    requires if i == p then s.deadLog == "" && Same(s.table, net[p].table) else CatchesUp(s, net[p].table)
    ensures Reconcilable(net[i := s], p)
  {
    OthersSound(net, i, s);
    SameNames(net, i, s);
  }

  lemma SameNames(net: Net, i: nat, s: Server)
    requires Configured(net) && i < |net| && SameConfiguration(net[i].role, s.role)
    ensures Configured(net[i := s])
  {
  }

  /** Roles and the enabled flag have no part in what the files hold. */
  lemma SoundRole(s: Server, role: Local, enabled: bool)
    requires Sound(s)
    ensures Sound(s.(role := role)) && Sound(s.(enabled := enabled))
  {
  }

  /** No status message touches what the files and tables hold. */
  lemma TellKeeps(net: Net, p: nat, i: nat, text: string)
    requires Reconcilable(net, p) && i < |net|
    ensures Reconcilable(Informed(net, i, text), p)
  {
    var s := net[i].(role := Receive(net[i].role, text));
    assert Sound(net[i]);
    SoundRole(net[i], s.role, net[i].enabled);
    assert i != p ==> CatchesUp(net[i], net[p].table);
    ReplaceKept(net, p, i, s);
  }

  /** A status message leaves the acting primary in agreement with the group exactly
      when it may hear it. */
  lemma TellStep(net: Net, p: nat, i: nat, text: string)
    requires Agreeing(net, p) && i < |net|
    ensures Agreeing(Informed(net, i, text), p) <==> CanHear(net, p, i, Parse(text))
  {
    if CanHear(net, p, i, Parse(text)) {
      SafeTell(net, p, i, text);
    }
    if Agreeing(Informed(net, i, text), p) {
      if i == p {
        ToldSafely(net, p, text);
      } else {
        assert InStep(Informed(net, i, text)[i], net[p].role.peers[i], net[p].table);
      }
    }
  }

  /** The primary told that j is alive: it forwards to j from then on, in agreement
      with it exactly if j is caught up, and with the same table exactly if what j
      missed changes nothing. */
  lemma RevivalStep(net: Net, p: nat, j: nat, text: string)
    requires Agreeing(net, p) && j < |net| && j != p
    requires Parse(text) == BePrimary(Just(net[j].role.me.addr), Nothing)
    ensures
      var net' := Informed(net, p, text);
      && Live(net'[p].role.peers[j]) && net'[j] == net[j] && net'[p].table == net[p].table
      && (Agreeing(net', p) <==> CaughtUp(net[j]))
      && (Same(net'[j].table, net'[p].table) <==> Same(net[j].table, Replay(net[j].table, Missed(net[j]))))
  {
    TellStep(net, p, p, text);
    AgreeingReconcilable(net, p);
    MissedMatters(net, p, j);
    assert net[p].role.peers[j].addr == net[j].role.me.addr != net[p].role.me.addr;
    assert forall i :: 0 <= i < |net| && net[i].role.me.addr == net[j].role.me.addr ==> i == j;
  }

  lemma SafeTell(net: Net, p: nat, i: nat, text: string)
    requires Agreeing(net, p) && CanHear(net, p, i, Parse(text))
    ensures Agreeing(Informed(net, i, text), p)
  {
    var m := Parse(text);
    var s := net[i].(role := Update(net[i].role, m));
    assert Sound(net[i]);
    SoundRole(net[i], s.role, net[i].enabled);
    if i == p {
      forall j | 0 <= j < |net| && j != p
        ensures InStep(net[j], s.role.peers[j], s.table)
      {
        ToldInStep(net, p, j, m);
      }
    } else {
      assert InStep(net[i], net[p].role.peers[i], net[p].table);
    }
    ReplaceOne(net, p, i, s);
  }

  lemma ToldInStep(net: Net, p: nat, j: nat, m: Message)
    requires Agreeing(net, p) && CanHear(net, p, p, m) && j < |net| && j != p
    ensures |Update(net[p].role, m).peers| == |net| && InStep(net[j], Update(net[p].role, m).peers[j], net[p].table)
  {
    assert net[p].role.peers[j].addr == net[j].role.me.addr != net[p].role.me.addr;
    assert InStep(net[j], net[p].role.peers[j], net[p].table);
  }

  lemma ToldSafely(net: Net, p: nat, text: string)
    requires Agreeing(net, p) && Agreeing(Informed(net, p, text), p)
    ensures CanHear(net, p, p, Parse(text))
  {
    var m, net' := Parse(text), Informed(net, p, text);
    assert net[p].role.peers[p].addr == net[p].role.me.addr;
    if m.BePrimary? {
      forall j | 0 <= j < |net| && m.newSecondary == Just(net[j].role.me.addr) && m.dead != m.newSecondary
        ensures CaughtUp(net[j])
      {
        assert net[p].role.peers[j].addr == net[j].role.me.addr;
        assert j != p;
        assert InStep(net'[j], net'[p].role.peers[j], net'[p].table);
      }
    }
  }

  /** Reinitializing a server replays what it missed and leaves it with the table. */
  lemma ReinitKeeps(net: Net, p: nat, i: nat, start: Server, net': Net)
    requires Reconcilable(net, p) && i < |net| && OnlyAt(net, net', i)
    requires Initialized(start, net'[i])
    requires start.disk == net[i].disk && start.log == net[i].log && start.deadLog == net[i].deadLog
    requires Within(start.table, net[i].table) && Clean(start.table)
    requires SameConfiguration(net[i].role, start.role)
    ensures Reconcilable(net', p) && Same(net'[p].table, net[p].table)
    ensures Sound(net'[i]) && CatchesUp(net'[i], net[p].table) && net'[i].deadLog == "" && net'[i].role == start.role
  {
    assert Sound(net[i]);
    InitializedRebuilds(start, net[i].table, net'[i]);
    NothingMissed(net'[i]);
    if i == p {
      NothingMissed(net[p]);
    } else {
      assert CatchesUp(net[i], net[p].table);
    }
    ReplaceKept(net, p, i, net'[i]);
    assert net' == net[i := net'[i]];
  }

  /** A server that initializes again in its old role, or as a secondary, is in step
      with the acting primary. */
  lemma ReinitStep(net: Net, p: nat, i: nat, start: Server, net': Net)
    requires Agreeing(net, p) && i < |net| && OnlyAt(net, net', i)
    requires Initialized(start, net'[i])
    requires start.disk == net[i].disk && start.log == net[i].log && start.deadLog == net[i].deadLog
    requires Within(start.table, net[i].table) && Clean(start.table)
    requires SameConfiguration(net[i].role, start.role)
    requires start.role == net[i].role || (i != p && !start.role.me.isPrimary)
    ensures Agreeing(net', p) && Same(net'[p].table, net[p].table)
  {
    AgreeingReconcilable(net, p);
    ReinitKeeps(net, p, i, start, net');
    if i == p {
      forall j | 0 <= j < |net| && j != p
        ensures InStep(net[j], net'[p].role.peers[j], net'[p].table)
      {
        InStepSame(net[j], net[p].role.peers[j], net[p].table, net'[p].table);
      }
    } else {
      assert InStep(net[i], net[p].role.peers[i], net[p].table);
    }
    ReplaceOne(net, p, i, net'[i]);
    assert net' == net[i := net'[i]];
  }

  // ---- Elections ----

  /** A message that makes q primary and names at most one server dead, after a
      failover or to the first server heard from: q then acts in agreement with the
      group exactly when it can be elected, and has the table exactly when what it
      missed changes nothing. */
  lemma ElectStep(net: Net, p: nat, q: nat, text: string)
    requires Reconcilable(net, p) && q < |net|
    requires Parse(text).BePrimary? && Parse(text).newSecondary.Nothing?
    ensures Agreeing(Informed(net, q, text), q) <==> CanElect(net, q, Parse(text))
    ensures Same(net[q].table, net[p].table) <==> Same(net[q].table, Replay(net[q].table, Missed(net[q])))
  {
    MissedMatters(net, p, q);
    if CanElect(net, q, Parse(text)) {
      SafeElection(net, p, q, text);
    }
    if Agreeing(Informed(net, q, text), q) {
      ElectedSafely(net, p, q, text);
    }
  }

  lemma SafeElection(net: Net, p: nat, q: nat, text: string)
    requires Reconcilable(net, p) && CanElect(net, q, Parse(text))
    ensures Agreeing(Informed(net, q, text), q) && Same(net[q].table, net[p].table)
  {
    var s := net[q].(role := Update(net[q].role, Parse(text)));
    CaughtUpSame(net, p, q);
    SameNames(net, q, s);
    assert Sound(net[q]);
    SoundRole(net[q], s.role, net[q].enabled);
    OthersSound(net, q, s);
    forall j | 0 <= j < |net| && j != q
      ensures InStep(net[j], s.role.peers[j], s.table)
    {
      ElectedEntry(net, p, q, Parse(text), j);
    }
  }

  /** The elected server's view of another one */
  lemma ElectedEntry(net: Net, p: nat, q: nat, m: Message, j: nat)
    requires Reconcilable(net, p) && CanElect(net, q, m) && j < |net| && j != q
    requires Same(net[q].table, net[p].table)
    ensures |Update(net[q].role, m).peers| == |net| && InStep(net[j], Update(net[q].role, m).peers[j], net[q].table)
  {
    assert net[q].role.peers[j].addr == net[j].role.me.addr != net[q].role.me.addr;
    if j == p {
      NothingMissed(net[p]);
    } else {
      assert CatchesUp(net[j], net[p].table);
    }
  }

  lemma ElectedSafely(net: Net, p: nat, q: nat, text: string)
    requires Reconcilable(net, p) && q < |net| && Agreeing(Informed(net, q, text), q)
    requires Parse(text).BePrimary? && Parse(text).newSecondary.Nothing?
    ensures CanElect(net, q, Parse(text))
  {
    var m, net' := Parse(text), Informed(net, q, text);
    assert net[q].role.peers[q].addr == net[q].role.me.addr;
    forall j | 0 <= j < |net| && j != q && m.dead != Just(net[j].role.me.addr)
      ensures !net[q].role.peers[j].isPrimary
      ensures !net[q].role.peers[j].isDead ==> CaughtUp(net[j])
    {
      assert net[q].role.peers[j].addr == net[j].role.me.addr != net[q].role.me.addr;
      assert InStep(net'[j], net'[q].role.peers[j], net'[q].table);
    }
  }

  // ---- The single map ----

  type Flat = map<(string, string), string>

  function At(m: Flat, r: string, c: string): string {
    if (r, c) in m then m[(r, c)] else ""
  }

  /** What a single map does with a command */
  function FlatApply(m: Flat, cmd: Cmd): Flat {
    match cmd
    case Put(r, c, v) => m[(r, c) := v]
    case Cput(r, c, e, v) => if At(m, r, c) == e then m[(r, c) := v] else m
    case Delete(r, c) => m - {(r, c)}
    case Get(_, _) => m
    case Other => m
  }

  ghost predicate Represents(t: Table, m: Flat) {
    forall r, c :: Lookup(t, r, c) == At(m, r, c)
  }

  lemma FlatStep(t: Table, m: Flat, cmd: Cmd)
    requires Represents(t, m)
    ensures Represents(Apply(t, cmd), FlatApply(m, cmd))
  {
    forall r, c
      ensures Lookup(Apply(t, cmd), r, c) == At(FlatApply(m, cmd), r, c)
    {
      ApplyEffect(t, cmd, r, c);
      assert Lookup(t, r, c) == At(m, r, c);
      if cmd.Cput? {
        assert Lookup(t, cmd.row, cmd.col) == At(m, cmd.row, cmd.col);
      }
    }
  }

  function FlatAfter(m: Flat, e: Event): Flat {
    if e.Write? then FlatApply(m, e.cmd) else m
  }

  /** A GET's answer, with absent and empty alike */
  function Answer(reply: Reply): string {
    if reply.Found? then reply.value else ""
  }

  /** The reply is the one a single map would give: a write is acknowledged exactly
      when it takes effect there, a read returns the value held there. Nothing else is
      acknowledged, and a disabled server gives an error. */
  ghost predicate AnswersAs(m: Flat, e: Event, reply: Reply) {
    match e
    case Write(_, cmd, _) =>
      reply == if cmd.Cput? && At(m, cmd.row, cmd.col) != cmd.expected then Error else Ok
    case Read(_, row, col) => Answer(reply) == At(m, row, col)
    case Query(_, _) => reply != Ok && reply != Silent
    case Refused(_, _) => reply == Error
    case _ => true
  }

  lemma WriteRefines(net: Net, p: nat, i: nat, cmd: Cmd, links: seq<Link>, reply: Reply, net': Net, m: Flat)
    requires Agreeing(net, p) && Represents(net[p].table, m) && CanWrite(net, p, i, cmd, links)
    requires Requested(net, net', i, Print(cmd), Up, links, reply)
    ensures Agreeing(net', p) && Represents(net'[p].table, FlatApply(m, cmd))
    ensures reply == if cmd.Cput? && At(m, cmd.row, cmd.col) != cmd.expected then Error else Ok
  {
    WriteStep(net, p, i, cmd, links, reply, net');
    WriteKeepsAgreement(net, net', p, cmd, links, reply);
    FlatStep(net[p].table, m, cmd);
    assert Lookup(net[p].table, cmd.row, cmd.col) == At(m, cmd.row, cmd.col);
  }

  lemma ReadRefines(net: Net, p: nat, i: nat, row: string, col: string, reply: Reply, net': Net, m: Flat)
    requires Reconcilable(net, p) && Represents(net[p].table, m) && CanRead(net, i, row, col)
    requires Requested(net, net', i, Print(Get(row, col)), Up, [], reply)
    ensures net' == net && Answer(reply) == At(m, row, col)
  {
    ReadStep(net, p, i, row, col, reply, net');
    CaughtUpSame(net, p, i);
    assert Lookup(net[i].table, row, col) == Lookup(net[p].table, row, col) == At(m, row, col);
  }

  /** The group is as it should be, and the leading table is the map m. */
  ghost predicate Follows(net: Net, l: Lead, m: Flat) {
    Kept(net, l) && Represents(net[l.p].table, m)
  }

  /** One step: what is kept stays kept, the reply is right, the map is followed. */
  lemma StepRefines(net: Net, l: Lead, e: Event, reply: Reply, net': Net, l': Lead, m: Flat)
    requires Follows(net, l, m) && Step(net, l, e, reply, net', l')
    ensures Follows(net', l', FlatAfter(m, e))
    ensures AnswersAs(m, e, reply)
  {
    match e {
      case Write(i, cmd, links) =>
        WriteRefines(net, l.p, i, cmd, links, reply, net', m);
        AgreeingReconcilable(net', l.p);
      case Read(i, row, col) =>
        ReadRefines(net, l.p, i, row, col, reply, net', m);
      case Query(i, line) =>
        QueryStep(net, l, i, line, reply, net');
      case Refused(i, line) =>
        DisabledAnswer(net, net', i, line, Up, [], reply);
      case Tell(i, text) =>
        TellKeeps(net, l.p, i, text);
        if l.acting {
          TellStep(net, l.p, i, text);
        }
      case Disable(i) =>
        DisableStep(net, l, i);
      case Enable(_) =>
        EnableStep(net, l, e, reply, net', l');
      case Restart(_, _) =>
        RestartStep(net, l, e, reply, net', l');
      case Elect(q, text) =>
        SafeElection(net, l.p, q, text);
        AgreeingReconcilable(net', q);
    }
  }

  lemma QueryStep(net: Net, l: Lead, i: nat, line: string, reply: Reply, net': Net)
    requires Kept(net, l) && i < |net| && net[i].enabled && !CmdOf(line).IsWrite()
    requires Requested(net, net', i, line, Up, [], reply)
    ensures net' == net && reply != Ok && reply != Silent
  {
    assert Sound(net[i]);
    UnreadAnswer(net, net', i, line, Up, [], reply);
    OtherAnswer(net, net', i, line, Up, [], reply);
  }

  lemma EnableStep(net: Net, l: Lead, e: Event, reply: Reply, net': Net, l': Lead)
    requires Kept(net, l) && e.Enable? && Step(net, l, e, reply, net', l')
    ensures Kept(net', l') && Same(net'[l.p].table, net[l.p].table)
  {
    if net[e.i].enabled {
      assert net' == net;
    } else {
      assert Sound(net[e.i]);
      ReinitKeeps(net, l.p, e.i, net[e.i].(enabled := true), net');
      if l.acting {
        ReinitStep(net, l.p, e.i, net[e.i].(enabled := true), net');
      }
    }
  }

  /** The restarted process does not act as primary, even if the old one did. */
  lemma RestartStep(net: Net, l: Lead, e: Event, reply: Reply, net': Net, l': Lead)
    requires Kept(net, l) && e.Restart? && Step(net, l, e, reply, net', l')
    ensures Kept(net', l') && Same(net'[l.p].table, net[l.p].table)
  {
    ReinitKeeps(net, l.p, e.i, Restarted(net[e.i], e.role), net');
    if l'.acting {
      ReinitStep(net, l.p, e.i, Restarted(net[e.i], e.role), net');
    }
  }

  lemma DisableStep(net: Net, l: Lead, i: nat)
    requires Kept(net, l) && i < |net|
    ensures Kept(net[i := net[i].(enabled := false)], l)
  {
    var s, p := net[i].(enabled := false), l.p;
    assert Sound(net[i]);
    SoundRole(net[i], s.role, false);
    assert i != p ==> CatchesUp(net[i], net[p].table);
    ReplaceKept(net, p, i, s);
    if l.acting {
      assert i != p ==> InStep(net[i], net[p].role.peers[i], net[p].table);
      ReplaceOne(net, p, i, s);
    }
  }

  // ---- Runs ----

  /** nets[i] and leads[i] before events[i], which was answered replies[i] */
  datatype Run = Run(nets: seq<Net>, leads: seq<Lead>, events: seq<Event>, replies: seq<Reply>)

  ghost predicate IsRun(r: Run) {
    && |r.nets| == |r.leads| == |r.events| + 1 && |r.replies| == |r.events|
    && forall i :: 0 <= i < |r.events| ==>
         Step(r.nets[i], r.leads[i], r.events[i], r.replies[i], r.nets[i + 1], r.leads[i + 1])
  }

  function FlatRun(m: Flat, events: seq<Event>): Flat {
    if events == [] then m else FlatAfter(FlatRun(m, events[..|events| - 1]), events[|events| - 1])
  }

  /** In every reachable state of every run each server holds the leading table once
      it has replayed what it missed, the acting primary agrees with the group, and
      the leading table is the map that the writes so far build. */
  lemma {:induction false} RunAgrees(r: Run, m: Flat, n: nat)
    requires IsRun(r) && n <= |r.events|
    requires Follows(r.nets[0], r.leads[0], m)
    ensures Follows(r.nets[n], r.leads[n], FlatRun(m, r.events[..n]))
  {
    if n > 0 {
      RunAgrees(r, m, n - 1);
      RunStep(r, n - 1);
      FlatRunSnoc(m, r.events, n - 1);
      StepRefines(r.nets[n - 1], r.leads[n - 1], r.events[n - 1], r.replies[n - 1],
                  r.nets[n], r.leads[n], FlatRun(m, r.events[..n - 1]));
    }
  }

  lemma RunStep(r: Run, n: nat)
    requires IsRun(r) && n < |r.events|
    ensures Step(r.nets[n], r.leads[n], r.events[n], r.replies[n], r.nets[n + 1], r.leads[n + 1])
  {
  }

  lemma FlatRunSnoc(m: Flat, events: seq<Event>, n: nat)
    requires n < |events|
    ensures FlatRun(m, events[..n + 1]) == FlatAfter(FlatRun(m, events[..n]), events[n])
  {
    assert events[..n + 1][..n] == events[..n];
  }

  /** The group answers every request of every run as one map would. */
  lemma RunRefinesMap(r: Run, m: Flat)
    requires IsRun(r)
    requires Follows(r.nets[0], r.leads[0], m)
    ensures forall i :: 0 <= i < |r.events| ==> AnswersAs(FlatRun(m, r.events[..i]), r.events[i], r.replies[i])
  {
    forall i | 0 <= i < |r.events|
      ensures AnswersAs(FlatRun(m, r.events[..i]), r.events[i], r.replies[i])
    {
      RunAgrees(r, m, i);
      StepRefines(r.nets[i], r.leads[i], r.events[i], r.replies[i], r.nets[i + 1], r.leads[i + 1],
                  FlatRun(m, r.events[..i]));
    }
  }

  /** Along every run each server's counter stays below the threshold and covers its
      log, and a restart from its files would rebuild its table. */
  lemma RunDurable(r: Run, m: Flat, n: nat, j: nat, role: Local, s': Server)
    requires IsRun(r) && n <= |r.events|
    requires Follows(r.nets[0], r.leads[0], m)
    requires j < |r.nets[n]|
    ensures |Lines(r.nets[n][j].log)| <= r.nets[n][j].writes <= 2
    ensures Initialized(Restarted(r.nets[n][j], role), s') ==>
            Same(s'.table, Replay(r.nets[n][j].table, Missed(r.nets[n][j])))
  {
    RunAgrees(r, m, n);
    assert Sound(r.nets[n][j]);
    if Initialized(Restarted(r.nets[n][j], role), s') {
      BootRebuilds(r.nets[n][j], role, s');
    }
  }

  // ---- Where runs start ----

  function Blank(role: Local): Server {
    Server(map[], "", "", "", 0, true, role)
  }

  function Blanks(roles: seq<Local>): (net: Net)
    ensures |net| == |roles|
    ensures forall i :: 0 <= i < |roles| ==> net[i] == Blank(roles[i])
  {
    seq(|roles|, i requires 0 <= i < |roles| => Blank(roles[i]))
  }

  /** A group of blank servers of which nobody has been heard yet is where runs start,
      with the empty map. */
  lemma BlankKept(roles: seq<Local>)
    requires |roles| > 0 && Configured(Blanks(roles))
    ensures Follows(Blanks(roles), Lead(0, false), map[])
  {
    var net := Blanks(roles);
    forall j | 0 <= j < |roles|
      ensures Sound(net[j]) && Missed(net[j]) == []
    {
      BlankDurable(roles[j]);
    }
  }

  /** A server that has missed nothing, flags nobody and holds everybody dead, as a
      new process does, can be elected whoever is named dead. */
  lemma UnawareElected(net: Net, q: nat, dead: Maybe<Addr>)
    requires q < |net| && |net[q].role.peers| == |net| && net[q].deadLog == "" && dead != Just(net[q].role.me.addr)
    requires forall j :: 0 <= j < |net| && j != q ==> Gone(net[q].role.peers[j])
    ensures CanElect(net, q, BePrimary(Nothing, dead))
  {
  }

  /** The restart of any server, of the acting primary too, leaves it electable. */
  lemma RestartedElected(net: Net, l: Lead, i: nat, role: Local, reply: Reply, net': Net, l': Lead, dead: Maybe<Addr>)
    requires Kept(net, l) && Step(net, l, Restart(i, role), reply, net', l')
    requires dead != Just(role.me.addr) && forall j :: 0 <= j < |role.peers| && j != i ==> Gone(role.peers[j])
    ensures CanElect(net', i, BePrimary(Nothing, dead))
  {
    assert Sound(net[i]);
    ReinitKeeps(net, l.p, i, Restarted(net[i], role), net');
    UnawareElected(net', i, dead);
  }

  lemma BlankDurable(role: Local)
    ensures Durable(Blank(role)) && Missed(Blank(role)) == []
  {
    NothingHeld();
    assert Lines("") == [] && CmdsOf(Lines("")) == [];
  }

  // ---- States in which a master's message parts the tables ----

  const FIRST_ADDR := Addr("a", 1)
  const OTHER_ADDR := Addr("a", 2)

  const NOBODY := ServerInfo(Addr("", 0), false, true)

  /** The role of a process of a group of two that has just been started */
  function NewRole(a: Addr): Local {
    var peers := [ServerInfo(FIRST_ADDR, false, true), ServerInfo(OTHER_ADDR, false, true)];
    Local(ServerInfo(a, false, true), NOBODY, peers)
  }

  /** The first one acts as primary and holds the other dead. */
  function PrimaryRole(): Local {
    var me := ServerInfo(FIRST_ADDR, true, false);
    Local(me, NOBODY, [me, ServerInfo(OTHER_ADDR, false, true)])
  }

  function Fresh(): (net: Net)
    ensures |net| == 2
  {
    [Blank(NewRole(FIRST_ADDR)), Blank(NewRole(OTHER_ADDR))]
  }

  function Elected(): (net: Net)
    ensures |net| == 2
  {
    [Blank(PrimaryRole()), Blank(NewRole(OTHER_ADDR))]
  }

  /** The primary has taken PUT r,k,v; the other server has it in its dead-server
      log. */
  function OneBehind(): (net: Net)
    ensures |net| == 2
  {
    var put := Put("r", "k", "v");
    [Exec(Blank(PrimaryRole()), put), Blank(NewRole(OTHER_ADDR)).(deadLog := AppendLine("", Print(put)))]
  }

  lemma FreshFollows()
    ensures Follows(Fresh(), Lead(0, false), map[])
  {
    var roles := [NewRole(FIRST_ADDR), NewRole(OTHER_ADDR)];
    assert Fresh() == Blanks(roles);
    BlankKept(roles);
  }

  /** The first server heard from is made primary. */
  lemma FirstElected(reply: Reply) returns (text: string)
    ensures Step(Fresh(), Lead(0, false), Elect(0, text), reply, Elected(), Lead(0, true))
  {
    text := StatusText(true, FIRST_ADDR, Nothing);
    StatusRoundTrip(true, FIRST_ADDR, Nothing);
    UnawareElected(Fresh(), 0, Nothing);
    ElectedIs(text);
  }

  lemma ElectedIs(text: string)
    requires Parse(text) == BePrimary(Nothing, Nothing)
    ensures Informed(Fresh(), 0, text) == Elected()
  {
    assert Receive(NewRole(FIRST_ADDR), text).peers == PrimaryRole().peers;
  }

  /** A write coordinated by an enabled primary is what it does with the client's
      line. */
  lemma PrimaryRequested(net: Net, net': Net, p: nat, cmd: Cmd, links: seq<Link>, reply: Reply)
    requires CanWrite(net, p, p, cmd, links) && net[p].role.me.isPrimary
    requires Coordinated(net, net', p, cmd, links, reply)
    ensures Requested(net, net', p, Print(cmd), Up, links, reply)
  {
    PrintedWrite(cmd);
  }

  lemma OneWrite()
    ensures Coordinated(Elected(), OneBehind(), 0, Put("r", "k", "v"), [Up, Up], Ok)
    ensures CanWrite(Elected(), 0, 0, Put("r", "k", "v"), [Up, Up])
  {
    assert WellFormed(Put("r", "k", "v"));
  }

  lemma OneWriteStep()
    ensures Step(Elected(), Lead(0, true), Write(0, Put("r", "k", "v"), [Up, Up]), Ok, OneBehind(), Lead(0, true))
  {
    OneWrite();
    PrimaryRequested(Elected(), OneBehind(), 0, Put("r", "k", "v"), [Up, Up], Ok);
  }

  /** Two agreeing servers of which the second has not the first one's table yet */
  ghost predicate Behind(net: Net) {
    && Agreeing(net, 0) && |net| == 2
    && net[0].role.me.addr == FIRST_ADDR && net[1].role.me.addr == OTHER_ADDR
    && net[1].deadLog != "" && !Same(net[1].table, net[0].table)
  }

  lemma OneBehindDiffers()
    ensures !Same(OneBehind()[1].table, OneBehind()[0].table)
  {
    var net := OneBehind();
    ApplyEffect(map[], Put("r", "k", "v"), "r", "k");
    assert Lookup(net[1].table, "r", "k") != Lookup(net[0].table, "r", "k");
  }

  /** The state is reached from two new servers by an election and one acknowledged
      write. */
  lemma OneIsBehind(reply: Reply) returns (text: string)
    ensures Follows(Fresh(), Lead(0, false), map[])
    ensures Step(Fresh(), Lead(0, false), Elect(0, text), reply, Elected(), Lead(0, true))
    ensures Step(Elected(), Lead(0, true), Write(0, Put("r", "k", "v"), [Up, Up]), Ok, OneBehind(), Lead(0, true))
    ensures Behind(OneBehind())
  {
    FreshFollows();
    text := FirstElected(reply);
    OneWriteStep();
    StepRefines(Fresh(), Lead(0, false), Elect(0, text), reply, Elected(), Lead(0, true), map[]);
    StepRefines(Elected(), Lead(0, true), Write(0, Put("r", "k", "v"), [Up, Up]), Ok, OneBehind(), Lead(0, true),
        map[]);
    OneBehindDiffers();
    OneBehindNames();
  }

  lemma OneBehindNames()
    ensures OneBehind()[0].role.me.addr == FIRST_ADDR && OneBehind()[1].role.me.addr == OTHER_ADDR
    ensures OneBehind()[1].deadLog != ""
  {
  }

  /** The primary is told that the other server is alive, which it is, before that
      server has run what it missed: the two live tables differ from then on. */
  lemma EarlyRevival(net: Net) returns (text: string)
    requires Behind(net)
    ensures Parse(text) == BePrimary(Just(OTHER_ADDR), Nothing)
    ensures
      var net' := Informed(net, 0, text);
      !Agreeing(net', 0) && Live(net'[0].role.peers[1]) && !Same(net'[1].table, net'[0].table)
  {
    text := NewSecondaryText(OTHER_ADDR);
    NewSecondaryRoundTrip(OTHER_ADDR);
    RevivalStep(net, 0, 1, text);
  }

  /** The primary dies and the other server is made primary before it has run what it
      missed: an acknowledged value is gone. */
  lemma EarlyPromotion(net: Net) returns (text: string)
    requires Behind(net)
    ensures Parse(text) == BePrimary(Nothing, Just(FIRST_ADDR))
    ensures
      var net' := Informed(net, 1, text);
      !Agreeing(net', 1) && net'[1].role.me.isPrimary && !Same(net'[1].table, net[0].table)
  {
    text := StatusText(true, OTHER_ADDR, Just(FIRST_ADDR));
    AgreeingReconcilable(net, 0);
    StatusRoundTrip(true, OTHER_ADDR, Just(FIRST_ADDR));
    ElectStep(net, 0, 1, text);
  }
}

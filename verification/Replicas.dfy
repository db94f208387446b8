/** One key-value server process: its in-memory globals and its files, updated in
    place. Every method is proved against the value-level operations. */
module Replicas {
  import opened Optional
  import opened Text
  import opened Numbers
  import opened Store
  import opened Wire
  import opened Disk
  import opened Status
  import opened Recovery

  lemma PrintParts(cmd: Cmd)
    requires cmd.IsWrite()
    ensures cmd.Put? ==> Print(cmd) == "PUT " + cmd.row + "," + cmd.col + "," + cmd.value
    ensures cmd.Cput? ==> Print(cmd) == "CPUT " + cmd.row + "," + cmd.col + "," + cmd.expected + "," + cmd.value
    ensures cmd.Delete? ==> Print(cmd) == "DELETE " + cmd.row + "," + cmd.col
  {
    match cmd {
      case Put(r, c, v) =>
        CommasOfThree(r, c, v);
        assert "PUT " + (r + "," + c + "," + v) == "PUT " + r + "," + c + "," + v;
      case Cput(r, c, e, v) =>
        CommasOfThree(c, e, v);
        assert [r, c, e, v][1..] == [c, e, v];
        assert "CPUT " + (r + "," + (c + "," + e + "," + v)) == "CPUT " + r + "," + c + "," + e + "," + v;
      case Delete(r, c) =>
        assert [r, c][1..] == [c];
        assert Commas([r, c]) == r + "," + Commas([c]) == r + "," + c;
        assert "DELETE " + (r + "," + c) == "DELETE " + r + "," + c;
    }
  }

  lemma CommasOfThree(a: string, b: string, c: string)
    ensures Commas([a, b, c]) == a + "," + b + "," + c
  {
    assert [a, b, c][1..] == [b, c] && [b, c][1..] == [c];
    assert Commas([b, c]) == b + "," + Commas([c]) == b + "," + c;
    assert Commas([a, b, c]) == a + "," + Commas([b, c]);
    assert a + "," + (b + "," + c) == a + "," + b + "," + c;
  }

  class Replica {
    var table: Table
    var disk: string
    var log: string
    var deadLog: string
    var writes: nat // currentNumberOfWritesForReplicaAndServer
    var enabled: bool
    var replaying: bool // currentlyReadingFromCheckpointFile
    var me: ServerInfo
    var primaryInfo: ServerInfo
    var peers: seq<ServerInfo>

    /** The state as a value */
    function Snap(): Server
      reads this
    {
      Server(table, disk, log, deadLog, writes, enabled, Local(me, primaryInfo, peers))
    }

    /** A process that starts on existing files and a parsed configuration */
    constructor (disk: string, log: string, deadLog: string, role: Local, stamp1: nat, stamp2: nat)
      ensures Initialized(Server(map[], disk, log, deadLog, 0, true, role), Snap())
      ensures !replaying
    {
      this.table := map[];
      this.disk, this.log, this.deadLog := disk, log, deadLog;
      this.writes, this.enabled, this.replaying := 0, true, false;
      this.me, this.primaryInfo, this.peers := role.me, role.primaryInfo, role.peers;
      new;
      Initialize(stamp1, stamp2);
    }

    method HandleAppend(command: string)
      modifies this`log, this`writes
      ensures log == if command != "" && !replaying then AppendLine(old(log), command) else old(log)
      ensures writes == if command != "" && !replaying then old(writes) + 1 else old(writes)
    {
      if command != "" && !replaying {
        log := AppendLine(log, command);
        writes := writes + 1;
      }
    }

    /** The part of handleCommand that works on the own table: taken while the
        server initializes, when the primary forwarded the command, and by the
        primary itself once the secondaries have it. */
    method RunLocally(params: seq<string>) returns (reply: Reply)
      requires |params| >= 1
      modifies this`table, this`log, this`writes
      ensures !replaying ==> Snap() == Exec(old(Snap()), Decode(params))
      ensures replaying ==> Snap() == old(Snap()).(table := Apply(old(table), Decode(params)))
      ensures reply == LocalReply(old(table), params)
      ensures RightAnswer(old(table), params, reply)
    {
      ghost var cmd := Decode(params);
      if cmd.IsWrite() {
        PrintParts(cmd);
      }
      if params[0] == "PUT " && |params| >= 4 {
        var row, col, value := params[1], params[2], params[3];
        table := Assign(table, row, col, value);
        HandleAppend("PUT " + row + "," + col + "," + value);
        reply := Ok;
      } else if params[0] == "CPUT " && |params| >= 5 {
        var row, col, expected, value := params[1], params[2], params[3], params[4];
        table := Touch(table, row, col);
        if table[row][col] == expected {
          table := Assign(table, row, col, value);
          HandleAppend("CPUT " + row + "," + col + "," + expected + "," + value);
          reply := Ok;
        } else {
          reply := Error;
        }
      } else if params[0] == "DELETE " && |params| >= 3 {
        var row, col := params[1], params[2];
        table := Erase(table, row, col);
        HandleAppend("DELETE " + row + "," + col);
        reply := Ok;
      } else if params[0] == "GET " && |params| == 3 {
        var row, col := params[1], params[2];
        if row in table && col in table[row] {
          reply := Found(table[row][col]);
        } else {
          reply := Error;
        }
      } else if params[0] == "LIST " {
        reply := Listing;
      } else {
        reply := Error;
      }
      LocalAnswer(old(table), params);
    }

    /** The two nested maps are walked in an order the program does not control. */
    method CheckpointTable(stamp: nat)
      modifies this`disk, this`log
      ensures IsDumpOf(disk, table) && log == ""
    {
      var file := AppendLine("", NatText(stamp));
      ghost var ks: seq<Key> := [];
      var rows := table.Keys;
      while rows != {}
        invariant rows <= table.Keys
        invariant file == DumpFile(stamp, table, ks)
        invariant forall i, j :: 0 <= i < j < |ks| ==> ks[i] != ks[j]
        invariant forall k :: k in ks <==> HasEntry(table, k) && k.0 !in rows
        decreases |rows|
      {
        var row :| row in rows;
        var columns := table[row].Keys;
        while columns != {}
          invariant columns <= table[row].Keys
          invariant file == DumpFile(stamp, table, ks)
          invariant forall i, j :: 0 <= i < j < |ks| ==> ks[i] != ks[j]
          invariant forall k :: k in ks <==> HasEntry(table, k) && (k.0 !in rows || (k.0 == row && k.1 !in columns))
          decreases |columns|
        {
          var column :| column in columns;
          CommasOfThree(row, column, table[row][column]);
          file := AppendLine(file, row + "," + column + "," + table[row][column]);
          assert (row, column) !in ks;
          ks := ks + [(row, column)];
          assert ks[..|ks| - 1] + [(row, column)] == ks;
          columns := columns - {column};
        }
        rows := rows - {row};
      }
      disk := file;
      log := "";
    }

    method CrashRecovery()
      requires !replaying
      modifies this`table, this`log, this`writes, this`deadLog
      ensures Snap() == Recovered(old(Snap()))
    {
      var lines := Lines(deadLog);
      for i := 0 to |lines|
        invariant Snap() == ExecAll(old(Snap()), CmdsOf(lines)[..i])
      {
        ReplayMissed(lines[i]);
        ExecAllStep(old(Snap()), CmdsOf(lines), i);
      }
      assert CmdsOf(lines)[..|lines|] == CmdsOf(lines);
      deadLog := "";
    }

    /** One line of the dead-server log, run as if it had just arrived */
    method ReplayMissed(line: string)
      requires !replaying
      modifies this`table, this`log, this`writes
      ensures Snap() == Exec(old(Snap()), CmdOf(line))
    {
      var params := SplitKVStoreCommand(line);
      var _ := RunLocally(params);
    }

    method LoadDiskFile()
      modifies this`table
      ensures Snap() == old(Snap()).(table := Load(old(table), Lines(disk)))
    {
      var lines := Lines(disk);
      for i := 0 to |lines|
        invariant table == Load(old(table), lines[..i])
      {
        var tokens := Pieces(lines[i], ',');
        if |tokens| == 3 {
          table := Assign(table, tokens[0], tokens[1], tokens[2]);
        }
        assert lines[..i + 1][..i] == lines[..i];
      }
      assert lines[..|lines|] == lines;
    }

    method ReplayLog()
      requires !replaying
      modifies this`table, this`log, this`writes, this`replaying
      ensures Snap() == old(Snap()).(table := Replay(old(table), Logged(old(Snap()))),
        writes := old(writes) + |Lines(old(log))|)
      ensures !replaying
    {
      var lines := Lines(log);
      replaying := true;
      for i := 0 to |lines|
        invariant replaying
        invariant Snap() == old(Snap()).(table := Replay(old(table), CmdsOf(lines)[..i]), writes := old(writes) + i)
      {
        ReplayLine(lines[i]);
        ReplayPrefixStep(old(table), CmdsOf(lines), i);
      }
      assert CmdsOf(lines)[..|lines|] == CmdsOf(lines);
      replaying := false;
    }

    /** One line of the log, counted before it is run */
    method ReplayLine(line: string)
      requires replaying
      modifies this`table, this`log, this`writes
      ensures Snap() == old(Snap()).(table := Apply(old(table), CmdOf(line)), writes := old(writes) + 1)
    {
      writes := writes + 1;
      var params := SplitKVStoreCommand(line);
      var _ := RunLocally(params);
    }

    method FlushIfDue(stamp: nat)
      modifies this`disk, this`log, this`writes
      ensures Flushed(old(Snap()), Snap())
    {
      if writes >= CHECKPOINTING_THRESHOLD {
        CheckpointTable(stamp);
        writes := 0;
      }
    }

    /** initialize: the table in memory is not cleared first */
    method Initialize(stamp1: nat, stamp2: nat)
      requires !replaying
      modifies this
      ensures Initialized(old(Snap()), Snap())
      ensures !replaying
    {
      LoadDiskFile();
      ReplayLog();
      assert Snap() == Reloaded(old(Snap()));
      FlushIfDue(stamp1);
      ghost var mid := Snap();
      CrashRecovery();
      FlushIfDue(stamp2);
      assert Flushed(Reloaded(old(Snap())), mid) && Flushed(Recovered(mid), Snap());
    }

    /** threadFunc after handleCommand returns */
    method CheckpointIfDue(stamp: nat)
      modifies this`disk, this`log, this`writes
      ensures Settled(old(Snap()), Snap())
    {
      if writes == CHECKPOINTING_THRESHOLD {
        CheckpointTable(stamp);
        writes := 0;
      }
    }

    /** The admin console's DISABLE and ENABLE */
    method Disable()
      modifies this`enabled
      ensures Snap() == old(Snap()).(enabled := false)
    {
      enabled := false;
    }

    method Enable(stamp1: nat, stamp2: nat)
      requires !replaying
      modifies this
      ensures if old(enabled) then Snap() == old(Snap()) else Initialized(old(Snap()).(enabled := true), Snap())
      ensures !replaying
    {
      if !enabled {
        enabled := true;
        Initialize(stamp1, stamp2);
      }
    }

    /** One datagram of receiveStatus; alive is false when stoi would have ended
        the process. */
    method ReceiveStatus(message: string) returns (alive: bool)
      modifies this`me, this`primaryInfo, this`peers
      ensures alive <==> !Parse(message).Malformed?
      ensures Snap() == old(Snap()).(role := Receive(old(Snap()).role, message))
    {
      var m := Parse(message);
      alive := !m.Malformed?;
      Obey(m);
    }

    method Obey(m: Message)
      modifies this`me, this`primaryInfo, this`peers
      ensures Snap() == old(Snap()).(role := Update(old(Snap()).role, m))
    {
      match m {
        case Malformed =>
        case BePrimary(added, dead) =>
          me := me.(isPrimary := true, isDead := false);
          StoreSelf();
          SetAlive(added);
          SetDead(dead);
        case BeSecondary(primary, dead) =>
          me := me.(isPrimary := false, isDead := false);
          FollowPrimary(primary);
          SetDead(dead);
      }
    }

    method StoreSelf()
      modifies this`peers
      ensures peers == StoreSelfIn(old(peers), me)
    {
      for i := 0 to |peers|
        invariant |peers| == |old(peers)|
        invariant forall j :: 0 <= j < |peers| ==>
          peers[j] == if j < i then MarkSelf(old(peers)[j], me) else old(peers)[j]
      {
        if peers[i].addr == me.addr {
          peers := peers[i := me];
        }
      }
    }

    method SetAlive(alive: Maybe<Addr>)
      modifies this`peers
      ensures peers == ReviveIn(old(peers), alive)
    {
      if alive.Just? {
        for i := 0 to |peers|
          invariant |peers| == |old(peers)|
          invariant forall j :: 0 <= j < |peers| ==>
            peers[j] == if j < i then MarkAlive(old(peers)[j], alive.value) else old(peers)[j]
        {
          if peers[i].addr == alive.value {
            peers := peers[i := peers[i].(isDead := false, isPrimary := false)];
          }
        }
      }
      assert peers == ReviveIn(old(peers), alive);
    }

    method SetDead(dead: Maybe<Addr>)
      modifies this`peers
      ensures peers == BuryIn(old(peers), dead)
    {
      if dead.Just? {
        for i := 0 to |peers|
          invariant |peers| == |old(peers)|
          invariant forall j :: 0 <= j < |peers| ==>
            peers[j] == if j < i then MarkDead(old(peers)[j], dead.value) else old(peers)[j]
        {
          if peers[i].addr == dead.value {
            peers := peers[i := peers[i].(isDead := true, isPrimary := false)];
          }
        }
      }
      assert peers == BuryIn(old(peers), dead);
    }

    method FollowPrimary(primary: Addr)
      modifies this`peers, this`primaryInfo
      ensures peers == FollowIn(old(peers), me, primary)
      ensures primaryInfo == LastWith(peers, primary, old(primaryInfo))
    {
      for i := 0 to |peers|
        invariant |peers| == |old(peers)|
        invariant forall j :: 0 <= j < |peers| ==>
          peers[j] == if j < i then MarkPrimary(MarkSelf(old(peers)[j], me), primary) else old(peers)[j]
        invariant primaryInfo == LastWith(peers[..i], primary, old(primaryInfo))
      {
        ghost var done := peers[..i];
        if peers[i].addr == me.addr {
          peers := peers[i := me];
        }
        if peers[i].addr == primary {
          peers := peers[i := peers[i].(isPrimary := true)];
          primaryInfo := peers[i];
        }
        assert peers[..i + 1][..i] == done;
      }
      assert peers[..|peers|] == peers;
    }
  }
}

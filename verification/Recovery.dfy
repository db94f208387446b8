/** The state of one server process and its files, as values: what a write, a
    checkpoint and initialize do to it, and what the files always hold. */
module Recovery {
  import opened Text
  import opened Store
  import opened Wire
  import opened Disk
  import opened Status

  /** Logged writes after which the table is written out (constants.h) */
  const CHECKPOINTING_THRESHOLD: nat := 3

  /** table, writes, enabled and role live in memory; disk, log and deadLog are
      files. deadLog is the file other servers append to while they take this
      one for dead. */
  datatype Server = Server(
    table: Table,
    disk: string,
    log: string,
    deadLog: string,
    writes: nat,
    enabled: bool,
    role: Local)

  function Logged(s: Server): seq<Cmd> {
    CmdsOf(Lines(s.log))
  }

  function Missed(s: Server): seq<Cmd> {
    CmdsOf(Lines(s.deadLog))
  }

  // ---- Operations ----

  /** The local part of handleCommand, with handleAppend */
  function Exec(s: Server, cmd: Cmd): Server {
    var s1 := s.(table := Apply(s.table, cmd));
    if Succeeds(s.table, cmd) then s1.(log := AppendLine(s.log, Print(cmd)), writes := s.writes + 1) else s1
  }

  /** checkpoint_table and the reset of the counter. The order of the entries in
      the file is arbitrary. */
  ghost predicate CheckpointOf(s: Server, s': Server) {
    && IsDumpOf(s'.disk, s.table)
    && s' == s.(disk := s'.disk, log := "", writes := 0)
  }

  /** The checkpoint test of threadFunc after each command */
  ghost predicate Settled(s: Server, s': Server) {
    if s.writes == CHECKPOINTING_THRESHOLD then CheckpointOf(s, s') else s' == s
  }

  /** One command run by threadFunc against the own table */
  ghost predicate Served(s: Server, cmd: Cmd, s': Server) {
    Settled(Exec(s, cmd), s')
  }

  /** The two checkpoint tests inside initialize */
  ghost predicate Flushed(s: Server, s': Server) {
    if s.writes >= CHECKPOINTING_THRESHOLD then CheckpointOf(s, s') else s' == s
  }

  /** Disk file read over the current table, then the log replayed; every log
      line counts as a write. */
  function Reloaded(s: Server): Server {
    s.(table := Replay(Load(s.table, Lines(s.disk)), Logged(s)),
       writes := s.writes + |Lines(s.log)|)
  }

  function ExecAll(s: Server, cmds: seq<Cmd>): Server {
    if cmds == [] then s else Exec(ExecAll(s, cmds[..|cmds| - 1]), cmds[|cmds| - 1])
  }

  lemma ExecAllStep(s: Server, cmds: seq<Cmd>, i: nat)
    requires i < |cmds|
    ensures ExecAll(s, cmds[..i + 1]) == Exec(ExecAll(s, cmds[..i]), cmds[i])
  {
    assert cmds[..i + 1][..i] == cmds[..i];
  }

  /** crashRecoveryFunction */
  function Recovered(s: Server): Server {
    ExecAll(s, Missed(s)).(deadLog := "")
  }

  /** initialize, from whatever table is in memory */
  ghost predicate Initialized(s: Server, s': Server) {
    exists mid :: Flushed(Reloaded(s), mid) && Flushed(Recovered(mid), s')
  }

  /** A process that has just started on the files of s */
  function Restarted(s: Server, role: Local): Server {
    s.(table := map[], writes := 0, enabled := true, role := role)
  }

  // ---- What the files hold ----

  /** The disk file and the log together hold the table t: the log is a run of
      successful commands that ends in t, and the disk file is a fuzzy image of
      that run. */
  ghost predicate Holds(disk: string, log: string, t: Table) {
    && Terminated(disk, NEWLINE)
    && Terminated(log, NEWLINE)
    && exists base ::
         && AllSucceed(base, CmdsOf(Lines(log)))
         && FuzzyImage(base, CmdsOf(Lines(log)), Load(map[], Lines(disk)))
         && Same(Replay(base, CmdsOf(Lines(log))), t)
  }

  /** Holds while a command is being served */
  ghost predicate Backed(s: Server) {
    && Holds(s.disk, s.log, s.table)
    && Clean(s.table)
    && Terminated(s.deadLog, NEWLINE)
    && |Lines(s.log)| <= s.writes
  }

  /** Holds between commands: the counter is below the threshold, so the test for
      equality with the threshold is never jumped over. */
  ghost predicate Durable(s: Server) {
    Backed(s) && s.writes < CHECKPOINTING_THRESHOLD
  }

  /** A command whose log line reads back, or that is never logged */
  predicate Loggable(cmd: Cmd) {
    cmd.IsWrite() ==> WellFormed(cmd)
  }

  ghost predicate AllLoggable(cmds: seq<Cmd>) {
    forall cmd :: cmd in cmds ==> Loggable(cmd)
  }

  lemma LoggablePlain(cmd: Cmd)
    requires Loggable(cmd) && cmd.IsWrite()
    ensures PlainFields(cmd)
  {
  }

  // ---- Appending and checkpointing keep what the files hold ----

  lemma HoldsSame(disk: string, log: string, t: Table, u: Table)
    requires Holds(disk, log, t) && Same(t, u)
    ensures Holds(disk, log, u)
  {
    var cmds := CmdsOf(Lines(log));
    var base :| && AllSucceed(base, cmds) && FuzzyImage(base, cmds, Load(map[], Lines(disk)))
                && Same(Replay(base, cmds), t);
    assert Same(Replay(base, cmds), u);
  }

  /** A longer run has the same fuzzy images and more. */
  lemma FuzzyImageSnoc(base: Table, cmds: seq<Cmd>, cmd: Cmd, image: Table)
    requires FuzzyImage(base, cmds, image)
    ensures FuzzyImage(base, cmds + [cmd], image)
  {
    forall r, c
      ensures Copied(base, cmds + [cmd], image, r, c)
    {
      assert Copied(base, cmds, image, r, c);
      var j :| CopiedAfter(base, cmds, image, r, c, j);
      assert (cmds + [cmd])[..j] == cmds[..j];
      assert CopiedAfter(base, cmds + [cmd], image, r, c, j);
    }
  }

  /** The line of a successful write brings the files to the new table, but a line
      with an empty last field leaves them at the old one. */
  lemma AppendHolds(disk: string, log: string, t: Table, cmd: Cmd)
    requires Holds(disk, log, t) && OneLine(cmd) && Succeeds(t, cmd)
    ensures Holds(disk, AppendLine(log, Print(cmd)), if LastField(cmd) == "" then t else Apply(t, cmd))
  {
    var cmds := CmdsOf(Lines(log));
    var base :| && AllSucceed(base, cmds) && FuzzyImage(base, cmds, Load(map[], Lines(disk)))
                && Same(Replay(base, cmds), t);
    LogAppend(log, cmd);
    SameApply(Replay(base, cmds), t, cmd);
    AllSucceedSnoc(base, cmds, Logs(cmd));
    FuzzyImageSnoc(base, cmds, Logs(cmd), Load(map[], Lines(disk)));
    ReplaySnoc(base, cmds, Logs(cmd));
  }

  lemma DumpSame(d: string, t: Table)
    requires Clean(t) && IsDumpOf(d, t)
    ensures Terminated(d, NEWLINE) && Same(Load(map[], Lines(d)), t)
  {
    LoadDump(d, t, map[]);
  }

  /** After the rename and before the truncation the new disk file stands beside
      the complete old log. */
  lemma RenamedHolds(disk: string, log: string, t: Table, d: string)
    requires Holds(disk, log, t) && Clean(t) && IsDumpOf(d, t)
    ensures Holds(d, log, t)
  {
    var cmds := CmdsOf(Lines(log));
    var base :| && AllSucceed(base, cmds) && FuzzyImage(base, cmds, Load(map[], Lines(disk)))
                && Same(Replay(base, cmds), t);
    DumpSame(d, t);
    forall r, c
      ensures Copied(base, cmds, Load(map[], Lines(d)), r, c)
    {
      assert cmds[..|cmds|] == cmds;
      assert CopiedAfter(base, cmds, Load(map[], Lines(d)), r, c, |cmds|);
    }
  }

  lemma TruncatedHolds(t: Table, d: string)
    requires Clean(t) && IsDumpOf(d, t)
    ensures Holds(d, "", t)
  {
    DumpSame(d, t);
    var base := Load(map[], Lines(d));
    assert Lines("") == [] && CmdsOf(Lines("")) == [];
    assert AllSucceed(base, []);
    forall r, c
      ensures Copied(base, [], base, r, c)
    {
      assert CopiedAfter(base, [], base, r, c, 0);
    }
  }

  lemma ExecBacked(s: Server, cmd: Cmd)
    requires Backed(s) && Loggable(cmd)
    ensures Backed(Exec(s, cmd))
  {
    if cmd.IsWrite() {
      LoggablePlain(cmd);
      ApplyClean(s.table, cmd);
    }
    if Succeeds(s.table, cmd) {
      AppendHolds(s.disk, s.log, s.table, cmd);
      LogAppend(s.log, cmd);
    } else {
      FailedApplySame(s.table, cmd);
      HoldsSame(s.disk, s.log, s.table, Apply(s.table, cmd));
    }
  }

  lemma CheckpointDurable(s: Server, s': Server)
    requires Clean(s.table) && Terminated(s.deadLog, NEWLINE) && CheckpointOf(s, s')
    ensures Durable(s')
  {
    TruncatedHolds(s.table, s'.disk);
    assert Lines("") == [];
  }

  /** Serving any command keeps the server durable. */
  lemma ServedDurable(s: Server, cmd: Cmd, s': Server)
    requires Durable(s) && Loggable(cmd) && Served(s, cmd, s')
    ensures Durable(s')
    ensures s'.table == Apply(s.table, cmd)
    ensures s'.deadLog == s.deadLog && s'.enabled == s.enabled && s'.role == s.role
  {
    ExecBacked(s, cmd);
    if Exec(s, cmd).writes == CHECKPOINTING_THRESHOLD {
      CheckpointDurable(Exec(s, cmd), s');
    }
  }

  // ---- Starting from the files ----

  lemma {:induction false} LoadOver(w: Table, lines: seq<string>, r: string, c: string)
    ensures
      var v, b := Lookup(Load(w, lines), r, c), Lookup(Load(map[], lines), r, c);
      v == b || (b == "" && v == Lookup(w, r, c))
  {
    if lines != [] {
      LoadOver(w, lines[..|lines| - 1], r, c);
    }
  }

  /** Every key of w is either unwritten or already has its value in t. */
  ghost predicate Within(w: Table, t: Table) {
    forall r, c :: Lookup(w, r, c) == "" || Lookup(w, r, c) == Lookup(t, r, c)
  }

  /** Reading the disk file over w and replaying the log rebuilds the table. */
  lemma ReloadRebuilds(disk: string, log: string, t: Table, w: Table)
    requires Holds(disk, log, t) && Within(w, t)
    ensures Same(Replay(Load(w, Lines(disk)), CmdsOf(Lines(log))), t)
  {
    var cmds, disk0 := CmdsOf(Lines(log)), Load(map[], Lines(disk));
    var base :| AllSucceed(base, cmds) && FuzzyImage(base, cmds, disk0) && Same(Replay(base, cmds), t);
    var start := Load(w, Lines(disk));
    forall r, c
      ensures Copied(base, cmds, start, r, c)
    {
      LoadOver(w, Lines(disk), r, c);
      if Lookup(start, r, c) == Lookup(disk0, r, c) {
        assert Copied(base, cmds, disk0, r, c);
        var j :| CopiedAfter(base, cmds, disk0, r, c, j);
        assert CopiedAfter(base, cmds, start, r, c, j);
      } else {
        assert cmds[..|cmds|] == cmds;
        assert CopiedAfter(base, cmds, start, r, c, |cmds|);
      }
    }
    FuzzyReplay(base, cmds, start);
  }

  /** The files hold one table only. */
  lemma HoldsOne(disk: string, log: string, t: Table, u: Table)
    requires Holds(disk, log, t) && Holds(disk, log, u)
    ensures Same(t, u)
  {
    ReloadRebuilds(disk, log, t, map[]);
    ReloadRebuilds(disk, log, u, map[]);
  }

  /** A logged write is kept by the files exactly when its last field is not empty
      or it changes nothing. */
  lemma AppendExact(disk: string, log: string, t: Table, cmd: Cmd)
    requires Holds(disk, log, t) && OneLine(cmd) && Succeeds(t, cmd)
    ensures Holds(disk, AppendLine(log, Print(cmd)), Apply(t, cmd)) <==> LastField(cmd) != "" || ChangesNothing(t, cmd)
  {
    var log' := AppendLine(log, Print(cmd));
    AppendHolds(disk, log, t, cmd);
    if LastField(cmd) == "" {
      if Holds(disk, log', Apply(t, cmd)) {
        HoldsOne(disk, log', t, Apply(t, cmd));
      }
      if ChangesNothing(t, cmd) {
        HoldsSame(disk, log', t, Apply(t, cmd));
      }
    }
  }

  lemma EmptyFieldLogged(s: Server, cmd: Cmd)
    requires Durable(s) && OneLine(cmd) && Succeeds(s.table, cmd) && LastField(cmd) == ""
    ensures Clean(Exec(s, cmd).table)
    ensures Backed(Exec(s, cmd)) <==> ChangesNothing(s.table, cmd)
  {
    assert PlainFields(cmd);
    ApplyClean(s.table, cmd);
    AppendExact(s.disk, s.log, s.table, cmd);
    LogAppend(s.log, cmd);
  }

  /** Serving any write that stays on one line keeps the server durable exactly when
      the write fails, its last field is not empty, it changes nothing, or the
      checkpoint follows at once. */
  lemma ServedExact(s: Server, cmd: Cmd, s': Server)
    requires Durable(s) && OneLine(cmd) && Served(s, cmd, s')
    ensures Durable(s') <==>
            || !Succeeds(s.table, cmd) || LastField(cmd) != "" || ChangesNothing(s.table, cmd)
            || s.writes == CHECKPOINTING_THRESHOLD - 1
  {
    if LastField(cmd) != "" {
      ServedDurable(s, cmd, s');
    } else if !Succeeds(s.table, cmd) {
      FailedServed(s, cmd, s');
    } else {
      EmptyFieldLogged(s, cmd);
      if s.writes == CHECKPOINTING_THRESHOLD - 1 {
        CheckpointDurable(Exec(s, cmd), s');
      }
    }
  }

  lemma FailedServed(s: Server, cmd: Cmd, s': Server)
    requires Durable(s) && OneLine(cmd) && Served(s, cmd, s') && !Succeeds(s.table, cmd)
    ensures Durable(s')
  {
    assert PlainFields(cmd);
    ApplyClean(s.table, cmd);
    FailedApplySame(s.table, cmd);
    HoldsSame(s.disk, s.log, s.table, Apply(s.table, cmd));
  }

  lemma ReloadedBacked(s: Server, t: Table)
    requires Holds(s.disk, s.log, t) && Within(s.table, t) && Clean(s.table) && Terminated(s.deadLog, NEWLINE)
    ensures Backed(Reloaded(s)) && Same(Reloaded(s).table, t)
  {
    ReloadRebuilds(s.disk, s.log, t, s.table);
    HoldsSame(s.disk, s.log, t, Reloaded(s).table);
    LoadClean(s.table, Lines(s.disk));
    CmdsOfPlain(Lines(s.log));
    ReplayClean(Load(s.table, Lines(s.disk)), Logged(s));
  }

  lemma FlushedDurable(s: Server, s': Server)
    requires Backed(s) && Flushed(s, s')
    ensures Durable(s') && s'.table == s.table
    ensures s'.deadLog == s.deadLog && s'.enabled == s.enabled && s'.role == s.role
  {
    if s.writes >= CHECKPOINTING_THRESHOLD {
      CheckpointDurable(s, s');
    }
  }

  lemma {:induction false} ExecAllBacked(s: Server, cmds: seq<Cmd>)
    requires Backed(s) && AllLoggable(cmds)
    ensures Backed(ExecAll(s, cmds))
  {
    if cmds != [] {
      var n := |cmds| - 1;
      ExecAllBacked(s, cmds[..n]);
      ExecBacked(ExecAll(s, cmds[..n]), cmds[n]);
    }
  }

  lemma {:induction false} ExecAllTable(s: Server, cmds: seq<Cmd>)
    ensures ExecAll(s, cmds).table == Replay(s.table, cmds)
    ensures ExecAll(s, cmds).disk == s.disk && ExecAll(s, cmds).deadLog == s.deadLog
    ensures ExecAll(s, cmds).enabled == s.enabled && ExecAll(s, cmds).role == s.role
  {
    if cmds != [] {
      ExecAllTable(s, cmds[..|cmds| - 1]);
    }
  }

  /** initialize on any table that agrees with t where it is written: the files'
      table t with the dead-server log applied exactly once, and a durable
      server whose dead-server log is empty. */
  lemma InitializedRebuilds(s: Server, t: Table, s': Server)
    requires Holds(s.disk, s.log, t) && Within(s.table, t) && Clean(s.table) && Terminated(s.deadLog, NEWLINE)
    requires AllLoggable(Missed(s))
    requires Initialized(s, s')
    ensures Durable(s')
    ensures Same(s'.table, Replay(t, Missed(s)))
    ensures s'.deadLog == "" && s'.enabled == s.enabled && s'.role == s.role
  {
    var mid :| Flushed(Reloaded(s), mid) && Flushed(Recovered(mid), s');
    ReloadedBacked(s, t);
    FlushedDurable(Reloaded(s), mid);
    ExecAllBacked(mid, Missed(s));
    ExecAllTable(mid, Missed(s));
    FlushedDurable(Recovered(mid), s');
    SameReplay(mid.table, t, Missed(s));
  }

  /** A new process on the files of a durable server rebuilds its table. */
  lemma BootRebuilds(s: Server, role: Local, s': Server)
    requires Durable(s) && AllLoggable(Missed(s))
    requires Initialized(Restarted(s, role), s')
    ensures Durable(s') && Same(s'.table, Replay(s.table, Missed(s))) && s'.deadLog == ""
    ensures s'.enabled && s'.role == role
  {
    InitializedRebuilds(Restarted(s, role), s.table, s');
  }

  /** DISABLE followed by ENABLE: initialize runs on a table that was never
      cleared, with a counter that was never reset. */
  lemma EnableRebuilds(s: Server, s': Server)
    requires Durable(s) && AllLoggable(Missed(s))
    requires Initialized(s.(enabled := true), s')
    ensures Durable(s') && Same(s'.table, Replay(s.table, Missed(s))) && s'.deadLog == ""
    ensures s'.enabled && s'.role == s.role
  {
    InitializedRebuilds(s.(enabled := true), s.table, s');
  }

  // ---- Crashes ----

  datatype Files = Files(disk: string, log: string)

  /** What a crash can leave behind while t is written out: the temporary file is
      being written, it has replaced the disk file, the log has been emptied. The
      window between remove and rename is not one of these. */
  ghost predicate CheckpointCrash(f: Files, t: Table, f': Files) {
    || f' == f
    || (IsDumpOf(f'.disk, t) && (f'.log == f.log || f'.log == ""))
  }

  /** What a crash can leave behind while s serves cmd; logged tells whether the
      command had reached the log. */
  ghost predicate ServeCrash(s: Server, cmd: Cmd, logged: bool, f: Files) {
    var s1 := Exec(s, cmd);
    if !logged then f == Files(s.disk, s.log)
    else
      && Succeeds(s.table, cmd)
      && (if s1.writes == CHECKPOINTING_THRESHOLD then CheckpointCrash(Files(s1.disk, s1.log), s1.table, f)
          else f == Files(s1.disk, s1.log))
  }

  lemma CheckpointCrashHolds(f: Files, t: Table, f': Files)
    requires Holds(f.disk, f.log, t) && Clean(t) && CheckpointCrash(f, t, f')
    ensures Holds(f'.disk, f'.log, t)
  {
    if f' != f {
      RenamedHolds(f.disk, f.log, t, f'.disk);
      TruncatedHolds(t, f'.disk);
    }
  }

  /** Whatever files a crash leaves while a command is served, the next start
      rebuilds the table of the writes that reached the log. */
  lemma CrashRebuilds(s: Server, cmd: Cmd, logged: bool, f: Files, role: Local, s': Server)
    requires Durable(s) && Loggable(cmd) && AllLoggable(Missed(s))
    requires ServeCrash(s, cmd, logged, f)
    requires Initialized(Restarted(s.(disk := f.disk, log := f.log), role), s')
    ensures Durable(s') && s'.deadLog == ""
    ensures Same(s'.table, Replay(if logged then Apply(s.table, cmd) else s.table, Missed(s)))
  {
    var t := if logged then Apply(s.table, cmd) else s.table;
    ServeCrashHolds(s, cmd, logged, f);
    InitializedRebuilds(Restarted(s.(disk := f.disk, log := f.log), role), t, s');
  }

  lemma ServeCrashHolds(s: Server, cmd: Cmd, logged: bool, f: Files)
    requires Durable(s) && Loggable(cmd) && ServeCrash(s, cmd, logged, f)
    ensures Holds(f.disk, f.log, if logged then Apply(s.table, cmd) else s.table)
  {
    var s1 := Exec(s, cmd);
    ExecBacked(s, cmd);
    if logged && s1.writes == CHECKPOINTING_THRESHOLD {
      CheckpointCrashHolds(Files(s1.disk, s1.log), s1.table, f);
    }
  }

  /** What a crash can leave while a server initializes: it is in the first
      checkpoint, it has run the first n dead-log commands and logged those that
      succeeded, or it is in the second checkpoint. */
  ghost predicate InitCrash(s: Server, mid: Server, n: nat, f: Files)
    requires n <= |Missed(s)|
  {
    var s1 := Reloaded(s);
    var s2 := ExecAll(mid, Missed(s)[..n]);
    || (s1.writes >= CHECKPOINTING_THRESHOLD && n == 0 && CheckpointCrash(Files(s1.disk, s1.log), s1.table, f))
    || f == Files(s2.disk, s2.log)
    || (n == |Missed(s)| && CheckpointCrash(Files(s2.disk, s2.log), s2.table, f))
  }

  /** A crash during initialize leaves files that hold the table with a prefix of
      the dead-server log applied, and no write is lost. */
  lemma InitCrashHolds(s: Server, t: Table, mid: Server, n: nat, f: Files)
    requires Holds(s.disk, s.log, t) && Within(s.table, t) && Clean(s.table) && Terminated(s.deadLog, NEWLINE)
    requires AllLoggable(Missed(s)) && n <= |Missed(s)|
    requires Flushed(Reloaded(s), mid) && InitCrash(s, mid, n, f)
    ensures Holds(f.disk, f.log, Replay(t, Missed(s)[..n]))
  {
    var s1, cmds := Reloaded(s), Missed(s)[..n];
    ReloadedBacked(s, t);
    FlushedDurable(s1, mid);
    ExecAllBacked(mid, cmds);
    ExecAllTable(mid, cmds);
    SameReplay(s1.table, t, cmds);
    var s2 := ExecAll(mid, cmds);
    if s1.writes >= CHECKPOINTING_THRESHOLD && n == 0 && CheckpointCrash(Files(s1.disk, s1.log), s1.table, f) {
      CheckpointCrashHolds(Files(s1.disk, s1.log), s1.table, f);
      assert cmds == [];
      HoldsSame(f.disk, f.log, s1.table, Replay(t, cmds));
    } else {
      if f != Files(s2.disk, s2.log) {
        CheckpointCrashHolds(Files(s2.disk, s2.log), s2.table, f);
      }
      HoldsSame(f.disk, f.log, s2.table, Replay(t, cmds));
    }
  }

  /** The start after an interrupted initialize runs the dead-server log, which may
      have been emptied by then, on a table that holds n of its commands already.
      For a log that can be repeated this loses and adds nothing. */
  lemma InterruptedInit(s: Server, t: Table, mid: Server, n: nat, f: Files, deadLog: string, role: Local, s': Server)
    requires Holds(s.disk, s.log, t) && Within(s.table, t) && Clean(s.table) && Terminated(s.deadLog, NEWLINE)
    requires AllLoggable(Missed(s)) && n <= |Missed(s)|
    requires Flushed(Reloaded(s), mid) && InitCrash(s, mid, n, f)
    requires deadLog == s.deadLog || (deadLog == "" && n == |Missed(s)|)
    requires Initialized(Restarted(s.(disk := f.disk, log := f.log, deadLog := deadLog), role), s')
    ensures Durable(s') && s'.deadLog == ""
    ensures
      var once := Replay(t, Missed(s)[..n]);
      Same(s'.table, if deadLog == s.deadLog then Replay(once, Missed(s)) else once)
    ensures Repeatable(t, Missed(s)) || deadLog != s.deadLog ==> Same(s'.table, Replay(t, Missed(s)))
  {
    var once, start := Replay(t, Missed(s)[..n]), Restarted(s.(disk := f.disk, log := f.log, deadLog := deadLog), role);
    InitCrashHolds(s, t, mid, n, f);
    assert Lines("") == [];
    InitializedRebuilds(start, once, s');
    assert deadLog != s.deadLog ==> Missed(s)[..n] == Missed(s) && Missed(start) == [];
    if Repeatable(t, Missed(s)) {
      RepeatableReplay(t, Missed(s), n);
    }
  }

  /** Two attempts of which only the second fires on a key that holds a */
  const FIRST := Cput("r", "k", "b", "z")
  const SECOND := Cput("r", "k", "a", "b")

  lemma AttemptsMissed()
    ensures
      var d := AppendLine(AppendLine("", Print(FIRST)), Print(SECOND));
      Terminated(d, NEWLINE) && CmdsOf(Lines(d)) == [FIRST, SECOND]
    ensures AllLoggable([FIRST, SECOND])
  {
    assert OneLine(FIRST) && OneLine(SECOND);
    assert Lines("") == [] && CmdsOf(Lines("")) == [];
    LogAppend("", FIRST);
    LogAppend(AppendLine("", Print(FIRST)), SECOND);
  }

  /** A start that ends after both attempts were run and before the dead-server log
      was emptied, followed by another start: the key ends at z, although the log
      applied once leaves it at b. */
  lemma InterruptedInitCanFail(s: Server, t: Table, mid: Server, f: Files, role: Local, s': Server)
    requires Holds(s.disk, s.log, t) && Within(s.table, t) && Clean(s.table)
    requires Lookup(t, "r", "k") == "a"
    requires s.deadLog == AppendLine(AppendLine("", Print(FIRST)), Print(SECOND))
    requires Flushed(Reloaded(s), mid) && f == Files(ExecAll(mid, Missed(s)).disk, ExecAll(mid, Missed(s)).log)
    requires Initialized(Restarted(s.(disk := f.disk, log := f.log), role), s')
    ensures Lookup(s'.table, "r", "k") == "z" && Lookup(Replay(t, Missed(s)), "r", "k") == "b"
  {
    AttemptsMissed();
    FullyInterrupted(s, t, mid, f, role, s');
    AttemptsTwice(t, s'.table, Missed(s));
  }

  lemma AttemptsTwice(t: Table, u: Table, d: seq<Cmd>)
    requires d == [FIRST, SECOND] && Lookup(t, "r", "k") == "a" && Same(u, Replay(Replay(t, d), d))
    ensures Lookup(u, "r", "k") == "z" && Lookup(Replay(t, d), "r", "k") == "b"
  {
    TwoAttempts(t, "a");
    TwoAttempts(Replay(t, d), "b");
  }

  /** The case of InterruptedInit in which the whole log had been run */
  lemma FullyInterrupted(s: Server, t: Table, mid: Server, f: Files, role: Local, s': Server)
    requires Holds(s.disk, s.log, t) && Within(s.table, t) && Clean(s.table) && Terminated(s.deadLog, NEWLINE)
    requires AllLoggable(Missed(s))
    requires Flushed(Reloaded(s), mid) && f == Files(ExecAll(mid, Missed(s)).disk, ExecAll(mid, Missed(s)).log)
    requires Initialized(Restarted(s.(disk := f.disk, log := f.log), role), s')
    ensures Same(s'.table, Replay(Replay(t, Missed(s)), Missed(s)))
  {
    var d := Missed(s);
    assert d[..|d|] == d;
    InterruptedInit(s, t, mid, |d|, f, s.deadLog, role, s');
  }

  lemma TwoAttempts(t: Table, v: string)
    requires Lookup(t, "r", "k") == v
    ensures v == "a" ==> Lookup(Replay(t, [FIRST, SECOND]), "r", "k") == "b"
    ensures v == "b" ==> Lookup(Replay(t, [FIRST, SECOND]), "r", "k") == "z"
  {
    assert [FIRST] + [SECOND] == [FIRST, SECOND] && [] + [FIRST] == [FIRST];
    ReplaySnoc(t, [FIRST], SECOND);
    ReplaySnoc(t, [], FIRST);
    ApplyEffect(t, FIRST, "r", "k");
    ApplyEffect(Replay(t, [FIRST]), SECOND, "r", "k");
  }

  /** Such a start exists: the value is in the log, nothing on disk. */
  lemma InterruptedInitHappens(role: Local) returns (s: Server, t: Table)
    ensures Holds(s.disk, s.log, t) && s.table == map[]
    ensures Lookup(t, "r", "k") == "a"
    ensures s.deadLog == AppendLine(AppendLine("", Print(FIRST)), Print(SECOND))
    ensures Flushed(Reloaded(s), Reloaded(s))
  {
    var log: string;
    log, t := OneValueHeld();
    s := Server(map[], "", log, AppendLine(AppendLine("", Print(FIRST)), Print(SECOND)), 0, true, role);
  }

  lemma OneValueHeld() returns (log: string, t: Table)
    ensures Holds("", log, t) && Lookup(t, "r", "k") == "a" && |Lines(log)| == 1
  {
    var put := Put("r", "k", "a");
    log, t := AppendLine("", Print(put)), Apply(map[], put);
    assert OneLine(put) && LastField(put) == "a";
    assert Lines("") == [];
    NothingHeld();
    AppendHolds("", "", map[], put);
    LogAppend("", put);
    ApplyEffect(map[], put, "r", "k");
  }

  lemma NothingHeld()
    ensures Holds("", "", map[])
  {
    var base: Table := map[];
    assert Lines("") == [] && CmdsOf(Lines("")) == [];
    assert Load(map[], []) == base;
    forall r, c
      ensures Copied(base, [], base, r, c)
    {
      assert CopiedAfter(base, [], base, r, c, 0);
    }
    assert AllSucceed(base, []) && FuzzyImage(base, [], base) && Same(Replay(base, []), base);
    assert AllSucceed(base, CmdsOf(Lines(""))) && FuzzyImage(base, CmdsOf(Lines("")), Load(map[], Lines("")));
  }

  // ---- Appends cut short ----

  lemma TornLines(log: string, cmd: Cmd, m: nat)
    requires Terminated(log, NEWLINE) && OneLine(cmd) && 0 < m <= |Print(cmd)|
    ensures CmdsOf(Lines(log + Print(cmd)[..m])) == CmdsOf(Lines(log)) + [Torn(cmd, m)]
  {
    var line := Print(cmd)[..m];
    CommasNewlineFree(Fields(cmd));
    assert NEWLINE !in Print(cmd);
    PiecesAppend(log, line, NEWLINE);
    PiecesOfOne(line, NEWLINE);
    CmdsOfSnoc(Lines(log), line);
    TornLine(cmd, m);
  }

  /** A crash in the middle of an append leaves a line the next start replays as it
      is: as the write, as a write with its last field cut short, or as nothing. */
  lemma TornReload(disk: string, log: string, t: Table, cmd: Cmd, m: nat)
    requires Holds(disk, log, t) && OneLine(cmd) && 0 < m <= |Print(cmd)|
    ensures Same(Replay(Load(map[], Lines(disk)), CmdsOf(Lines(log + Print(cmd)[..m]))), Apply(t, Torn(cmd, m)))
  {
    var start, cmds := Load(map[], Lines(disk)), CmdsOf(Lines(log));
    ReloadRebuilds(disk, log, t, map[]);
    TornLines(log, cmd, m);
    ReplaySnoc(start, cmds, Torn(cmd, m));
    SameApply(Replay(start, cmds), t, Torn(cmd, m));
  }

  /** The first start after a torn append finds the table without the write or with it
      exactly when the line was cut before its last field, or behind it, or what is
      left of it changes nothing. What later starts find is WriteAfterTorn's matter. */
  lemma TornAppendExact(disk: string, log: string, t: Table, cmd: Cmd, m: nat)
    requires Holds(disk, log, t) && WellFormed(cmd) && Succeeds(t, cmd) && 0 < m <= |Print(cmd)|
    ensures
      var u := Replay(Load(map[], Lines(disk)), CmdsOf(Lines(log + Print(cmd)[..m])));
      Same(u, t) || Same(u, Apply(t, cmd)) <==>
        m <= LastStart(cmd) || m == |Print(cmd)| || ChangesNothing(t, Torn(cmd, m))
  {
    var u := Replay(Load(map[], Lines(disk)), CmdsOf(Lines(log + Print(cmd)[..m])));
    TornReload(disk, log, t, cmd, m);
    if m <= LastStart(cmd) {
      assert Torn(cmd, m) == Other;
    } else {
      TornTables(t, cmd, m, u);
    }
  }

  lemma TornTables(t: Table, cmd: Cmd, m: nat, u: Table)
    requires cmd.IsWrite() && Succeeds(t, cmd) && LastStart(cmd) < m <= |Print(cmd)|
    requires Same(u, Apply(t, Torn(cmd, m)))
    ensures Same(u, t) || Same(u, Apply(t, cmd)) <==> m == |Print(cmd)| || ChangesNothing(t, Torn(cmd, m))
  {
    if m == |Print(cmd)| {
      assert LastField(cmd)[..|LastField(cmd)|] == LastField(cmd);
    } else {
      CutDiffers(t, cmd, m - LastStart(cmd));
    }
  }

  /** A write with its last field cut short is not the write, unless it changes
      nothing. */
  lemma CutDiffers(t: Table, cmd: Cmd, k: nat)
    requires cmd.IsWrite() && Succeeds(t, cmd) && 0 < k < |LastField(cmd)|
    ensures Same(Apply(t, CutLast(cmd, k)), Apply(t, cmd)) ==> ChangesNothing(t, CutLast(cmd, k))
  {
    var cut := CutLast(cmd, k);
    assert |LastField(cmd)[..k]| != |LastField(cmd)|;
    forall r, c
      ensures Lookup(Apply(t, cut), r, c) == Effect(cut, r, c, Lookup(t, r, c))
      ensures Lookup(Apply(t, cmd), r, c) == Effect(cmd, r, c, Lookup(t, r, c))
    {
      ApplyEffect(t, cut, r, c);
      ApplyEffect(t, cmd, r, c);
    }
    if Same(Apply(t, cut), Apply(t, cmd)) {
      assert Lookup(Apply(t, cut), cmd.row, cmd.col) == Lookup(Apply(t, cmd), cmd.row, cmd.col);
    }
  }

  /** A value nobody wrote: the line of PUT r,k,value cut after "va" */
  lemma TornAppendInvents(disk: string, log: string, t: Table)
    requires Holds(disk, log, t)
    ensures
      var line := Print(Put("r", "k", "value"))[..10];
      Lookup(Replay(Load(map[], Lines(disk)), CmdsOf(Lines(log + line))), "r", "k") == "va"
  {
    var cmd := Put("r", "k", "value");
    CutToVa(cmd);
    TornReload(disk, log, t, cmd, 10);
    ApplyEffect(t, Torn(cmd, 10), "r", "k");
  }

  lemma CutToVa(cmd: Cmd)
    requires cmd == Put("r", "k", "value")
    ensures |Print(cmd)| == 13 && Torn(cmd, 10) == Put("r", "k", "va")
  {
    PrintedEnd(cmd);
    assert Init(cmd) == ["r", "k"];
    assert ["r", "k"][1..] == ["k"];
    assert LastStart(cmd) == 8;
    assert "value"[..2] == "va";
  }

  // ---- Starting on a line cut short ----

  /** The commands that succeed when cmds run in order from t */
  function Successful(t: Table, cmds: seq<Cmd>): seq<Cmd> {
    if cmds == [] then []
    else
      var n := |cmds| - 1;
      Successful(t, cmds[..n]) + if Succeeds(Replay(t, cmds[..n]), cmds[n]) then [cmds[n]] else []
  }

  function LogAll(log: string, cmds: seq<Cmd>): string {
    if cmds == [] then log else AppendLine(LogAll(log, cmds[..|cmds| - 1]), Print(cmds[|cmds| - 1]))
  }

  lemma {:induction false} SuccessfulSame(t: Table, u: Table, cmds: seq<Cmd>)
    requires Same(t, u)
    ensures Successful(t, cmds) == Successful(u, cmds)
  {
    if cmds != [] {
      var n := |cmds| - 1;
      SuccessfulSame(t, u, cmds[..n]);
      SameReplay(t, u, cmds[..n]);
      SameApply(Replay(t, cmds[..n]), Replay(u, cmds[..n]), cmds[n]);
    }
  }

  lemma {:induction false} SuccessfulFrom(t: Table, cmds: seq<Cmd>)
    ensures forall cmd :: cmd in Successful(t, cmds) ==> cmd in cmds && cmd.IsWrite()
  {
    if cmds != [] {
      SuccessfulFrom(t, cmds[..|cmds| - 1]);
    }
  }

  lemma {:induction false} ExecAllLog(s: Server, cmds: seq<Cmd>)
    ensures ExecAll(s, cmds).log == LogAll(s.log, Successful(s.table, cmds))
    ensures ExecAll(s, cmds).writes == s.writes + |Successful(s.table, cmds)|
  {
    if cmds != [] {
      var n := |cmds| - 1;
      ExecAllLog(s, cmds[..n]);
      ExecAllTable(s, cmds[..n]);
      var before, t := Successful(s.table, cmds[..n]), Replay(s.table, cmds[..n]);
      if Succeeds(t, cmds[n]) {
        LogAllSnoc(s.log, before, cmds[n]);
      } else {
        assert before + [] == before;
      }
    }
  }

  lemma LogAllSnoc(log: string, cmds: seq<Cmd>, cmd: Cmd)
    ensures LogAll(log, cmds + [cmd]) == AppendLine(LogAll(log, cmds), Print(cmd))
  {
    assert (cmds + [cmd])[..|cmds + [cmd]| - 1] == cmds;
  }

  /** What initialize leaves in memory and in the files. Three or more counted writes
      make a checkpoint before the missed commands run, those that succeed are counted
      and logged, and if there are three by then a second checkpoint takes them in. */
  lemma InitializedFiles(s: Server, s': Server)
    requires Initialized(s, s')
    ensures
      var t := Replay(Load(s.table, Lines(s.disk)), Logged(s));
      var missed, counted := Successful(t, Missed(s)), s.writes + |Lines(s.log)|;
      var first := counted >= 3;
      var writes := |missed| + if first then 0 else counted;
      && s'.table == Replay(t, Missed(s)) && s'.deadLog == ""
      && if writes >= 3 then s'.writes == 0 && s'.log == "" && IsDumpOf(s'.disk, s'.table)
         else
           && s'.writes == writes && s'.log == LogAll(if first then "" else s.log, missed)
           && if first then IsDumpOf(s'.disk, t) else s'.disk == s.disk
  {
    var mid :| Flushed(Reloaded(s), mid) && Flushed(Recovered(mid), s');
    ExecAllTable(mid, Missed(s));
    ExecAllLog(mid, Missed(s));
  }

  /** The command of a line does on t what a logged one does: it writes, and if it
      compares, it finds the value it expects or has written already. */
  predicate FitsIn(t: Table, g: Cmd) {
    g.Cput? ==> Lookup(t, g.row, g.col) == g.expected || Lookup(t, g.row, g.col) == g.value
  }

  /** Exactly which table a log of one line holds, whatever the line */
  lemma LineHolds(disk: string, t: Table, line: string, u: Table)
    requires Holds(disk, "", t) && NEWLINE !in line
    ensures Holds(disk, AppendLine("", line), u) <==> Same(u, Apply(t, CmdOf(line))) && FitsIn(t, CmdOf(line))
  {
    var log, g, disk0 := AppendLine("", line), CmdOf(line), Load(map[], Lines(disk));
    OneLineLog(line);
    DiskHolds(disk, t);
    ReplaySnoc(disk0, [], g);
    SameApply(disk0, t, g);
    if Holds(disk, log, u) {
      ReloadRebuilds(disk, log, u, map[]);
      LineFits(disk, t, line, u);
    }
    if Same(u, Apply(t, g)) && FitsIn(t, g) {
      FittingLine(disk, line, disk0, g);
      HoldsSame(disk, log, Apply(disk0, g), u);
    }
  }

  lemma OneLineLog(line: string)
    requires NEWLINE !in line
    ensures Terminated(AppendLine("", line), NEWLINE) && Lines(AppendLine("", line)) == [line]
    ensures CmdsOf(Lines(AppendLine("", line))) == [CmdOf(line)] == [] + [CmdOf(line)]
  {
    assert Lines("") == [];
    LinesAppend("", line);
  }

  lemma DiskHolds(disk: string, t: Table)
    requires Holds(disk, "", t)
    ensures Same(Load(map[], Lines(disk)), t)
  {
    assert Lines("") == [] && CmdsOf(Lines("")) == [];
    ReloadRebuilds(disk, "", t, map[]);
  }

  lemma LineFits(disk: string, t: Table, line: string, u: Table)
    requires Holds(disk, AppendLine("", line), u) && NEWLINE !in line && Same(Load(map[], Lines(disk)), t)
    ensures FitsIn(t, CmdOf(line))
  {
    var g, disk0 := CmdOf(line), Load(map[], Lines(disk));
    OneLineLog(line);
    var base :| AllSucceed(base, [g]) && FuzzyImage(base, [g], disk0) && Same(Replay(base, [g]), u);
    if g.Cput? {
      assert Copied(base, [g], disk0, g.row, g.col);
      var j :| CopiedAfter(base, [g], disk0, g.row, g.col, j);
      OneCommand(base, g, j);
      assert Lookup(disk0, g.row, g.col) == Lookup(t, g.row, g.col);
    }
  }

  lemma OneCommand(base: Table, g: Cmd, j: int)
    requires 0 <= j <= 1 && AllSucceed(base, [g]) && g.Cput?
    ensures
      var v := Lookup(Replay(base, [g][..j]), g.row, g.col);
      v == g.expected || v == g.value
  {
    assert [g][..0] == [] && [g][..1] == [] + [g];
    assert Succeeds(Replay(base, [g][..0]), [g][0]);
    ReplaySnoc(base, [], g);
    ApplyEffect(base, g, g.row, g.col);
  }

  lemma FittingLine(disk: string, line: string, t: Table, g: Cmd)
    requires NEWLINE !in line && g == CmdOf(line) && t == Load(map[], Lines(disk)) && Terminated(disk, NEWLINE)
    requires FitsIn(t, g)
    ensures Holds(disk, AppendLine("", line), Apply(t, g))
  {
    var base := if g.Cput? && !Succeeds(t, g) then Assign(t, g.row, g.col, g.expected) else t;
    OneLineLog(line);
    assert [g][..0] == [] && [g][..1] == [] + [g];
    ReplaySnoc(base, [], g);
    assert AllSucceed(base, [g]);
    forall r, c
      ensures Copied(base, [g], t, r, c)
      ensures Lookup(Replay(base, [g]), r, c) == Lookup(Apply(t, g), r, c)
    {
      FittingKey(t, g, base, r, c);
      assert CopiedAfter(base, [g], t, r, c, 0) || CopiedAfter(base, [g], t, r, c, 1);
    }
    assert FuzzyImage(base, [g], t) && Same(Replay(base, [g]), Apply(t, g));
  }

  lemma FittingKey(t: Table, g: Cmd, base: Table, r: string, c: string)
    requires FitsIn(t, g)
    requires base == if g.Cput? && !Succeeds(t, g) then Assign(t, g.row, g.col, g.expected) else t
    ensures Lookup(Apply(base, g), r, c) == Lookup(Apply(t, g), r, c)
    ensures Lookup(t, r, c) == Lookup(base, r, c) || Lookup(t, r, c) == Lookup(Apply(base, g), r, c)
  {
    ApplyEffect(base, g, r, c);
    ApplyEffect(t, g, r, c);
  }

  /** A new process on the files a crash in the middle of an append left */
  function TornServer(s: Server, cmd: Cmd, m: nat, role: Local): Server
    requires m <= |Print(cmd)|
  {
    Restarted(s.(log := s.log + Print(cmd)[..m]), role)
  }

  ghost predicate CanTear(s: Server, t: Table, cmd: Cmd, m: nat) {
    && Holds(s.disk, s.log, t) && Terminated(s.deadLog, NEWLINE) && AllLoggable(Missed(s))
    && OneLine(cmd) && 0 < m <= |Print(cmd)|
  }

  lemma TornReloaded(s: Server, t: Table, cmd: Cmd, m: nat, role: Local)
    requires CanTear(s, t, cmd, m)
    ensures
      var r := Reloaded(TornServer(s, cmd, m, role));
      && Same(r.table, Apply(t, Torn(cmd, m))) && Clean(r.table)
      && r.log == s.log + Print(cmd)[..m] && r.disk == s.disk && r.deadLog == s.deadLog
      && r.writes == |Lines(s.log)| + 1 && r.enabled && r.role == role
  {
    var start := TornServer(s, cmd, m, role);
    TornReload(s.disk, s.log, t, cmd, m);
    TornLines(s.log, cmd, m);
    assert |CmdsOf(Lines(start.log))| == |CmdsOf(Lines(s.log))| + 1;
    LoadClean(map[], Lines(s.disk));
    CmdsOfPlain(Lines(start.log));
    ReplayClean(Load(map[], Lines(s.disk)), Logged(start));
  }

  /** What recovery makes of any server with a readable dead-server log */
  lemma RecoveredParts(r: Server)
    requires Clean(r.table) && Terminated(r.deadLog, NEWLINE)
    ensures
      var s := Recovered(r);
      && s.table == Replay(r.table, Missed(r)) && Clean(s.table) && s.deadLog == "" && s.disk == r.disk
      && s.log == LogAll(r.log, Successful(r.table, Missed(r)))
      && s.writes == r.writes + |Successful(r.table, Missed(r))|
      && s.enabled == r.enabled && s.role == r.role
  {
    ExecAllTable(r, Missed(r));
    ExecAllLog(r, Missed(r));
    CmdsOfPlain(Lines(r.deadLog));
    ReplayClean(r.table, Missed(r));
  }

  lemma FlushedKeeps(s: Server, s': Server)
    requires Flushed(s, s')
    ensures s'.table == s.table && s'.deadLog == s.deadLog && s'.enabled == s.enabled && s'.role == s.role
  {
  }

  /** The line that stands in the log when recovery, or the first write after it,
      has put its first line behind the one cut short */
  function RunTogether(cmd: Cmd, m: nat, c: Cmd): string
    requires m <= |Print(cmd)|
  {
    Print(cmd)[..m] + Print(c)
  }

  lemma RunTogetherLog(cmd: Cmd, m: nat, c: Cmd)
    requires OneLine(cmd) && OneLine(c) && m <= |Print(cmd)|
    ensures NEWLINE !in RunTogether(cmd, m, c)
    ensures AppendLine("" + Print(cmd)[..m], Print(c)) == AppendLine("", RunTogether(cmd, m, c))
  {
    CommasNewlineFree(Fields(cmd));
    CommasNewlineFree(Fields(c));
    assert NEWLINE !in Print(cmd) && NEWLINE !in Print(c);
    AppendTwo(Print(cmd)[..m], Print(c));
  }

  lemma AppendTwo(cut: string, line: string)
    ensures AppendLine("" + cut, line) == AppendLine("", cut + line)
  {
  }

  /** A cut line at its end makes a log unreadable to what comes after. */
  lemma CutLogHoldsNothing(disk: string, log: string, cmd: Cmd, m: nat, u: Table)
    requires OneLine(cmd) && 0 < m <= |Print(cmd)|
    ensures !Holds(disk, log + Print(cmd)[..m], u)
  {
    var cut := Print(cmd)[..m];
    CommasNewlineFree(Fields(cmd));
    assert NEWLINE !in Print(cmd);
    assert (log + cut)[|log + cut| - 1] == cut[m - 1] == Print(cmd)[m - 1];
  }

  /** The first start after a torn append: the write counts as its cut line reads, and
      what was missed is applied to that, once. */
  lemma TornStart(s: Server, t: Table, cmd: Cmd, m: nat, role: Local, s': Server)
    requires CanTear(s, t, cmd, m) && Initialized(TornServer(s, cmd, m, role), s')
    ensures Same(s'.table, Replay(Apply(t, Torn(cmd, m)), Missed(s)))
    ensures s'.deadLog == "" && s'.enabled && s'.role == role
  {
    var r := Reloaded(TornServer(s, cmd, m, role));
    var mid :| Flushed(r, mid) && Flushed(Recovered(mid), s');
    TornReloaded(s, t, cmd, m, role);
    FlushedKeeps(r, mid);
    RecoveredParts(mid);
    FlushedKeeps(Recovered(mid), s');
    SameReplay(r.table, Apply(t, Torn(cmd, m)), Missed(s));
  }

  /** Whether the server is durable after that start: exactly when one of the two
      checkpoint tests got rid of the cut line, or the log was empty before and the
      one missed command that was logged behind the cut line makes a line that does
      the same. */
  lemma TornStartExact(s: Server, t: Table, cmd: Cmd, m: nat, role: Local, s': Server)
    requires CanTear(s, t, cmd, m) && Initialized(TornServer(s, cmd, m, role), s')
    ensures
      var ks := Successful(Apply(t, Torn(cmd, m)), Missed(s));
      Durable(s') <==>
        || |Lines(s.log)| + 1 + |ks| >= CHECKPOINTING_THRESHOLD
        || (s.log == "" && |ks| == 1 && OneLineDoes(t, cmd, m, ks[0], s'.table))
  {
    var r := Reloaded(TornServer(s, cmd, m, role));
    var mid :| Flushed(r, mid) && Flushed(Recovered(mid), s');
    TornReloaded(s, t, cmd, m, role);
    SuccessfulSame(r.table, Apply(t, Torn(cmd, m)), Missed(s));
    RecoveredParts(mid);
    if r.writes >= CHECKPOINTING_THRESHOLD {
      CheckpointDurable(r, mid);
      ExecAllBacked(mid, Missed(s));
      FlushedDurable(Recovered(mid), s');
    } else if r.writes + |Successful(r.table, Missed(s))| >= CHECKPOINTING_THRESHOLD {
      CheckpointDurable(Recovered(mid), s');
    } else {
      TornUnflushed(s, t, cmd, m, s', Successful(r.table, Missed(s)));
    }
  }

  ghost predicate OneLineDoes(t: Table, cmd: Cmd, m: nat, c: Cmd, u: Table)
    requires m <= |Print(cmd)|
  {
    var g := CmdOf(RunTogether(cmd, m, c));
    Same(u, Apply(t, g)) && FitsIn(t, g)
  }

  lemma TornUnflushed(s: Server, t: Table, cmd: Cmd, m: nat, s': Server, ks: seq<Cmd>)
    requires CanTear(s, t, cmd, m) && ks == Successful(Apply(t, Torn(cmd, m)), Missed(s))
    requires |Lines(s.log)| + 1 + |ks| < CHECKPOINTING_THRESHOLD
    requires s'.disk == s.disk && s'.log == LogAll(s.log + Print(cmd)[..m], ks) && s'.deadLog == "" && Clean(s'.table)
    requires s'.writes == |Lines(s.log)| + 1 + |ks|
    ensures Durable(s') <==> s.log == "" && |ks| == 1 && OneLineDoes(t, cmd, m, ks[0], s'.table)
  {
    if ks == [] {
      CutLogHoldsNothing(s.disk, s.log, cmd, m, s'.table);
    } else {
      assert |Lines(s.log)| == 0;
      assert s.log == "";
      SuccessfulFrom(Apply(t, Torn(cmd, m)), Missed(s));
      assert ks[0] in ks;
      assert ks[..0] == [];
      OneLogged(s', s.disk, t, cmd, m, ks[0]);
    }
  }

  lemma OneLogged(s': Server, disk: string, t: Table, cmd: Cmd, m: nat, c: Cmd)
    requires Holds(disk, "", t) && OneLine(cmd) && OneLine(c) && m <= |Print(cmd)|
    requires s'.disk == disk && s'.log == AppendLine("" + Print(cmd)[..m], Print(c))
    requires s'.deadLog == "" && Clean(s'.table) && s'.writes == 2
    ensures Durable(s') <==> OneLineDoes(t, cmd, m, c, s'.table)
  {
    var line := RunTogether(cmd, m, c);
    RunTogetherLog(cmd, m, c);
    LineHolds(disk, t, line, s'.table);
    OneLineLog(line);
  }

  /** The server after such a start when nothing was missed and no test was due */
  lemma TornAtRest(s: Server, t: Table, cmd: Cmd, m: nat, role: Local, s': Server)
    requires CanTear(s, t, cmd, m) && Initialized(TornServer(s, cmd, m, role), s')
    requires Missed(s) == [] && |Lines(s.log)| + 1 < CHECKPOINTING_THRESHOLD
    ensures s'.log == s.log + Print(cmd)[..m] && s'.writes == |Lines(s.log)| + 1 && s'.disk == s.disk
    ensures s'.deadLog == "" && Clean(s'.table)
  {
    var r := Reloaded(TornServer(s, cmd, m, role));
    var mid :| Flushed(r, mid) && Flushed(Recovered(mid), s');
    TornReloaded(s, t, cmd, m, role);
    RecoveredParts(mid);
  }

  /** The first write acknowledged after such a start is kept exactly when the
      checkpoint follows at once, because the log was not empty before, or the two
      lines run together do what the two writes did. */
  lemma WriteAfterTorn(s: Server, t: Table, cmd: Cmd, m: nat, role: Local, s': Server, c: Cmd, s'': Server)
    requires CanTear(s, t, cmd, m) && Initialized(TornServer(s, cmd, m, role), s')
    requires Missed(s) == [] && |Lines(s.log)| + 1 < CHECKPOINTING_THRESHOLD
    requires WellFormed(c) && Succeeds(s'.table, c) && Served(s', c, s'')
    ensures Durable(s'') <==> s.log != "" || OneLineDoes(t, cmd, m, c, s''.table)
  {
    TornAtRest(s, t, cmd, m, role, s');
    assert PlainFields(c);
    ApplyClean(s'.table, c);
    if s.log == "" {
      assert Lines("") == [];
      OneLogged(s'', s.disk, t, cmd, m, c);
    } else {
      assert Lines(s.log) != [];
      CheckpointDurable(Exec(s', c), s'');
    }
  }

  /** What the files then give back when the cut was inside the last field: neither
      of the two writes, but the first with the verb and the first field of the
      second in its last field. */
  lemma GluedReload(disk: string, log: string, t: Table, cmd: Cmd, m: nat, c: Cmd)
    requires Holds(disk, log, t) && OneLine(cmd) && OneLine(c) && LastStart(cmd) < m <= |Print(cmd)|
    ensures
      var log' := AppendLine(log + Print(cmd)[..m], Print(c));
      Same(Replay(Load(map[], Lines(disk)), CmdsOf(Lines(log'))), Apply(t, Glued(cmd, m, c)))
  {
    var start, cmds, line := Load(map[], Lines(disk)), CmdsOf(Lines(log)), RunTogether(cmd, m, c);
    RunTogetherLog(cmd, m, c);
    AppendThree(log, Print(cmd)[..m], Print(c));
    LinesAppend(log, line);
    CmdsOfSnoc(Lines(log), line);
    GluedLine(cmd, m, c);
    ReloadRebuilds(disk, log, t, map[]);
    ReplaySnoc(start, cmds, Glued(cmd, m, c));
    SameApply(Replay(start, cmds), t, Glued(cmd, m, c));
  }

  lemma AppendThree(log: string, cut: string, line: string)
    ensures AppendLine(log + cut, line) == AppendLine(log, cut + line)
  {
  }

  /** For a PUT, only the newline missing included: the next write is lost, and the key
      holds a value nobody wrote. */
  lemma NextWriteLost(disk: string, log: string, t: Table, r: string, k: string, v: string, m: nat, c: Cmd)
    requires Holds(disk, log, t) && OneLine(Put(r, k, v)) && OneLine(c)
    requires LastStart(Put(r, k, v)) < m <= |Print(Put(r, k, v))|
    ensures
      var put := Put(r, k, v);
      var u := Replay(Load(map[], Lines(disk)), CmdsOf(Lines(AppendLine(log + Print(put)[..m], Print(c)))));
      && Lookup(u, r, k) == v[..m - LastStart(put)] + (Verb(c) + Fields(c)[0])
      && forall x, y :: (x, y) != (r, k) ==> Lookup(u, x, y) == Lookup(t, x, y)
  {
    var put := Put(r, k, v);
    var g := Glued(put, m, c);
    GluedReload(disk, log, t, put, m, c);
    assert g == Put(r, k, v[..m - LastStart(put)] + (Verb(c) + Fields(c)[0]));
    forall x, y
      ensures Lookup(Apply(t, g), x, y) == Effect(g, x, y, Lookup(t, x, y))
    {
      ApplyEffect(t, g, x, y);
    }
  }

  /** A crash while initialize logs a missed command: the next start applies what had
      been run, the command as its cut line reads, and then the whole dead-server
      log again. */
  lemma TornInit(s: Server, t: Table, mid: Server, n: nat, m: nat, role: Local, s': Server)
    requires Holds(s.disk, s.log, t) && Within(s.table, t) && Clean(s.table) && Terminated(s.deadLog, NEWLINE)
    requires AllLoggable(Missed(s)) && n < |Missed(s)| && Missed(s)[n].IsWrite()
    requires Flushed(Reloaded(s), mid) && 0 < m <= |Print(Missed(s)[n])|
    requires
      var s1 := ExecAll(mid, Missed(s)[..n]);
      Initialized(TornServer(s.(disk := s1.disk, log := s1.log), Missed(s)[n], m, role), s')
    ensures
      var once := Replay(t, Missed(s)[..n]);
      Same(s'.table, Replay(Apply(once, Torn(Missed(s)[n], m)), Missed(s)))
  {
    var s1, cmd := ExecAll(mid, Missed(s)[..n]), Missed(s)[n];
    InitCrashHolds(s, t, mid, n, Files(s1.disk, s1.log));
    assert cmd in Missed(s);
    TornStart(s.(disk := s1.disk, log := s1.log), Replay(t, Missed(s)[..n]), cmd, m, role, s');
  }
}

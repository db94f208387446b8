/** The in-memory table of one server and the commands that change it.

    Two tables are compared through Lookup, which reads an absent entry as the
    empty string: a conditional write inserts an empty entry whenever it
    compares against a key that was never written. */
module Store {
  type Columns = map<string, string>
  type Table = map<string, Columns>

  /** A parsed command. Other stands for everything that leaves the table alone
      and is not a GET: LIST, an unknown verb, or too few parameters. */
  datatype Cmd =
    | Put(row: string, col: string, value: string)
    | Cput(row: string, col: string, expected: string, value: string)
    | Delete(row: string, col: string)
    | Get(row: string, col: string)
    | Other
  {
    predicate IsWrite() {
      Put? || Cput? || Delete?
    }
  }

  function Lookup(t: Table, r: string, c: string): string {
    if r in t && c in t[r] then t[r][c] else ""
  }

  function ColumnsOf(t: Table, r: string): Columns {
    if r in t then t[r] else map[]
  }

  /** table[r][c] = v */
  function Assign(t: Table, r: string, c: string, v: string): Table {
    t[r := ColumnsOf(t, r)[c := v]]
  }

  /** table[r].erase(c): leaves an empty row behind */
  function Erase(t: Table, r: string, c: string): Table {
    t[r := ColumnsOf(t, r) - {c}]
  }

  /** The effect of merely evaluating table[r][c] */
  function Touch(t: Table, r: string, c: string): Table {
    Assign(t, r, c, Lookup(t, r, c))
  }

  function Apply(t: Table, cmd: Cmd): Table {
    match cmd
    case Put(r, c, v) => Assign(t, r, c, v)
    case Cput(r, c, e, v) =>
      if Touch(t, r, c)[r][c] == e then Assign(Touch(t, r, c), r, c, v) else Touch(t, r, c)
    case Delete(r, c) => Erase(t, r, c)
    case Get(_, _) => t
    case Other => t
  }

  /** Whether a server that runs cmd locally answers +OK and logs it */
  predicate Succeeds(t: Table, cmd: Cmd) {
    match cmd
    case Put(_, _, _) => true
    case Cput(r, c, e, _) => Lookup(t, r, c) == e
    case Delete(_, _) => true
    case Get(_, _) => false
    case Other => false
  }

  function Replay(t: Table, cmds: seq<Cmd>): Table {
    if cmds == [] then t
    else Apply(Replay(t, cmds[..|cmds| - 1]), cmds[|cmds| - 1])
  }

  ghost predicate Same(t: Table, u: Table) {
    forall r, c :: Lookup(t, r, c) == Lookup(u, r, c)
  }

  /** The command leaves every value as it is. */
  ghost predicate ChangesNothing(t: Table, cmd: Cmd) {
    Same(t, Apply(t, cmd))
  }

  /** Every write of cmds succeeds when they run in order from t. */
  ghost predicate AllSucceed(t: Table, cmds: seq<Cmd>) {
    forall i :: 0 <= i < |cmds| ==> cmds[i].IsWrite() ==> Succeeds(Replay(t, cmds[..i]), cmds[i])
  }

  // ---- One key at a time ----

  /** What cmd does to the value v that the key (r, c) holds */
  function Effect(cmd: Cmd, r: string, c: string, v: string): string {
    match cmd
    case Put(r', c', w) => if r == r' && c == c' then w else v
    case Cput(r', c', e, w) => if r == r' && c == c' && v == e then w else v
    case Delete(r', c') => if r == r' && c == c' then "" else v
    case Get(_, _) => v
    case Other => v
  }

  lemma ApplyEffect(t: Table, cmd: Cmd, r: string, c: string)
    ensures Lookup(Apply(t, cmd), r, c) == Effect(cmd, r, c, Lookup(t, r, c))
  {
  }

  /** Which entries there are afterwards, empty ones included: a PUT or CPUT makes one,
      even if the CPUT fails, and a DELETE removes one. */
  lemma EntriesAfter(t: Table, cmd: Cmd, r: string, c: string)
    ensures
      var t' := Apply(t, cmd);
      r in t' && c in t'[r] <==>
        if cmd.IsWrite() && cmd.row == r && cmd.col == c then !cmd.Delete? else r in t && c in t[r]
  {
  }

  lemma SameApply(t: Table, u: Table, cmd: Cmd)
    requires Same(t, u)
    ensures Same(Apply(t, cmd), Apply(u, cmd))
    ensures Succeeds(t, cmd) == Succeeds(u, cmd)
  {
    forall r, c
      ensures Lookup(Apply(t, cmd), r, c) == Lookup(Apply(u, cmd), r, c)
    {
      ApplyEffect(t, cmd, r, c);
      ApplyEffect(u, cmd, r, c);
    }
    if cmd.Cput? {
      assert Lookup(t, cmd.row, cmd.col) == Lookup(u, cmd.row, cmd.col);
    }
  }

  /** A command that does not succeed changes no value. */
  lemma FailedApplySame(t: Table, cmd: Cmd)
    requires !Succeeds(t, cmd)
    ensures Same(Apply(t, cmd), t)
  {
    forall r, c
      ensures Lookup(Apply(t, cmd), r, c) == Lookup(t, r, c)
    {
      ApplyEffect(t, cmd, r, c);
    }
  }

  lemma {:induction false} SameReplay(t: Table, u: Table, cmds: seq<Cmd>)
    requires Same(t, u)
    ensures Same(Replay(t, cmds), Replay(u, cmds))
  {
    if cmds != [] {
      var n := |cmds| - 1;
      SameReplay(t, u, cmds[..n]);
      SameApply(Replay(t, cmds[..n]), Replay(u, cmds[..n]), cmds[n]);
    }
  }

  lemma ReplaySnoc(t: Table, a: seq<Cmd>, cmd: Cmd)
    ensures Replay(t, a + [cmd]) == Apply(Replay(t, a), cmd)
  {
    assert (a + [cmd])[..|a + [cmd]| - 1] == a;
  }

  lemma ReplayPrefixStep(t: Table, cmds: seq<Cmd>, i: nat)
    requires i < |cmds|
    ensures Replay(t, cmds[..i + 1]) == Apply(Replay(t, cmds[..i]), cmds[i])
  {
    assert cmds[..i + 1] == cmds[..i] + [cmds[i]];
    ReplaySnoc(t, cmds[..i], cmds[i]);
  }

  // ---- Replaying a log onto a state that already holds part of it ----

  /** The key holds the value of the original run after i commands or the one after
      j commands. */
  ghost predicate NowOrLater(base: Table, cmds: seq<Cmd>, start: Table, r: string, c: string, i: nat, j: nat) {
    && i <= j <= |cmds|
    && var v := Lookup(Replay(start, cmds[..i]), r, c);
       v == Lookup(Replay(base, cmds[..i]), r, c) || v == Lookup(Replay(base, cmds[..j]), r, c)
  }

  predicate Compares(cmd: Cmd, r: string, c: string) {
    cmd.Cput? && cmd.row == r && cmd.col == c
  }

  /** Command i is no conditional write on the key that failed in the original run
      and expects the value the key has after j commands. */
  ghost predicate Quiet(base: Table, cmds: seq<Cmd>, r: string, c: string, i: nat, j: nat)
    requires i < |cmds| && j <= |cmds|
  {
    Compares(cmds[i], r, c) && !Succeeds(Replay(base, cmds[..i]), cmds[i]) ==>
      cmds[i].expected != Lookup(Replay(base, cmds[..j]), r, c)
  }

  ghost predicate QuietBefore(base: Table, cmds: seq<Cmd>, r: string, c: string, j: nat) {
    j <= |cmds| && forall i: nat :: i < j ==> Quiet(base, cmds, r, c, i, j)
  }

  lemma SuccessIsQuiet(base: Table, cmds: seq<Cmd>, r: string, c: string, j: nat)
    requires AllSucceed(base, cmds) && j <= |cmds|
    ensures QuietBefore(base, cmds, r, c, j)
  {
  }

  /** So it is while the first i <= j commands are replayed. */
  lemma {:induction false} FuzzyKeyBehind(base: Table, cmds: seq<Cmd>, start: Table, r: string, c: string, i: nat,
      j: nat)
    requires QuietBefore(base, cmds, r, c, j) && i <= j
    requires Lookup(start, r, c) == Lookup(Replay(base, cmds[..j]), r, c)
    ensures NowOrLater(base, cmds, start, r, c, i, j)
  {
    if i > 0 {
      FuzzyKeyBehind(base, cmds, start, r, c, i - 1, j);
      BehindStep(base, cmds, start, r, c, i - 1, j);
    }
  }

  lemma BehindStep(base: Table, cmds: seq<Cmd>, start: Table, r: string, c: string, i: nat, j: nat)
    requires i < j <= |cmds| && Quiet(base, cmds, r, c, i, j)
    requires NowOrLater(base, cmds, start, r, c, i, j)
    ensures NowOrLater(base, cmds, start, r, c, i + 1, j)
  {
    ReplayPrefixStep(base, cmds, i);
    ReplayPrefixStep(start, cmds, i);
    ApplyEffect(Replay(base, cmds[..i]), cmds[i], r, c);
    ApplyEffect(Replay(start, cmds[..i]), cmds[i], r, c);
  }

  /** After i commands the replay agrees with the original run on the key. */
  ghost predicate CaughtUp(base: Table, cmds: seq<Cmd>, start: Table, r: string, c: string, i: nat) {
    i <= |cmds| && Lookup(Replay(start, cmds[..i]), r, c) == Lookup(Replay(base, cmds[..i]), r, c)
  }

  /** Once the replay has caught up with the original run it stays with it. */
  lemma {:induction false} FuzzyKeyAhead(base: Table, cmds: seq<Cmd>, start: Table, r: string, c: string, j: nat,
      i: nat)
    requires j <= i <= |cmds| && CaughtUp(base, cmds, start, r, c, j)
    ensures CaughtUp(base, cmds, start, r, c, i)
  {
    if i != j {
      FuzzyKeyAhead(base, cmds, start, r, c, j, i - 1);
      AheadStep(base, cmds, start, r, c, i - 1);
    }
  }

  lemma AheadStep(base: Table, cmds: seq<Cmd>, start: Table, r: string, c: string, i: nat)
    requires i < |cmds| && CaughtUp(base, cmds, start, r, c, i)
    ensures CaughtUp(base, cmds, start, r, c, i + 1)
  {
    ReplayPrefixStep(base, cmds, i);
    ReplayPrefixStep(start, cmds, i);
    SameEffect(Replay(base, cmds[..i]), Replay(start, cmds[..i]), cmds[i], r, c);
  }

  /** A command does the same to a key that two tables agree on. */
  lemma SameEffect(t: Table, u: Table, cmd: Cmd, r: string, c: string)
    requires Lookup(t, r, c) == Lookup(u, r, c)
    ensures Lookup(Apply(t, cmd), r, c) == Lookup(Apply(u, cmd), r, c)
  {
    ApplyEffect(t, cmd, r, c);
    ApplyEffect(u, cmd, r, c);
  }

  /** start is a fuzzy image of the run of cmds from base: each key was copied
      after some prefix of the run, and different keys after different ones. */
  ghost predicate FuzzyImage(base: Table, cmds: seq<Cmd>, start: Table) {
    forall r, c :: Copied(base, cmds, start, r, c)
  }

  ghost predicate Copied(base: Table, cmds: seq<Cmd>, start: Table, r: string, c: string) {
    exists j :: CopiedAfter(base, cmds, start, r, c, j)
  }

  ghost predicate CopiedAfter(base: Table, cmds: seq<Cmd>, start: Table, r: string, c: string, j: int) {
    0 <= j <= |cmds| && Lookup(start, r, c) == Lookup(Replay(base, cmds[..j]), r, c)
  }

  /** Fuzzy checkpoint theorem: replaying the whole log of successful commands
      onto any fuzzy image of its own run rebuilds the final state. */
  lemma FuzzyReplay(base: Table, cmds: seq<Cmd>, start: Table)
    requires AllSucceed(base, cmds)
    requires FuzzyImage(base, cmds, start)
    ensures Same(Replay(start, cmds), Replay(base, cmds))
  {
    forall r, c
      ensures Lookup(Replay(start, cmds), r, c) == Lookup(Replay(base, cmds), r, c)
    {
      assert Copied(base, cmds, start, r, c);
      var j :| CopiedAfter(base, cmds, start, r, c, j);
      SuccessIsQuiet(base, cmds, r, c, j);
      KeyRebuilt(base, cmds, start, r, c, j);
    }
  }

  /** One key of the theorem */
  lemma KeyRebuilt(base: Table, cmds: seq<Cmd>, start: Table, r: string, c: string, j: nat)
    requires QuietBefore(base, cmds, r, c, j)
    requires Lookup(start, r, c) == Lookup(Replay(base, cmds[..j]), r, c)
    ensures Lookup(Replay(start, cmds), r, c) == Lookup(Replay(base, cmds), r, c)
  {
    FuzzyKeyBehind(base, cmds, start, r, c, j, j);
    FuzzyKeyAhead(base, cmds, start, r, c, j, |cmds|);
    assert cmds[..|cmds|] == cmds;
  }

  // ---- Logs of attempts ----

  /** A PUT or DELETE of cmds writes the key whatever it holds. */
  ghost predicate Rewritten(cmds: seq<Cmd>, r: string, c: string) {
    exists i :: 0 <= i < |cmds| && Overwrites(cmds[i], r, c)
  }

  predicate Overwrites(cmd: Cmd, r: string, c: string) {
    (cmd.Put? || cmd.Delete?) && cmd.row == r && cmd.col == c
  }

  /** After a PUT or DELETE of a key it does not matter what the key held before. */
  lemma {:induction false} RewrittenForgets(t: Table, u: Table, cmds: seq<Cmd>, r: string, c: string)
    requires Rewritten(cmds, r, c)
    ensures Lookup(Replay(t, cmds), r, c) == Lookup(Replay(u, cmds), r, c)
  {
    var n := |cmds| - 1;
    var t', u' := Replay(t, cmds[..n]), Replay(u, cmds[..n]);
    if Overwrites(cmds[n], r, c) {
      ApplyEffect(t', cmds[n], r, c);
      ApplyEffect(u', cmds[n], r, c);
    } else {
      var i :| 0 <= i < |cmds| && Overwrites(cmds[i], r, c);
      assert Overwrites(cmds[..n][i], r, c);
      RewrittenForgets(t, u, cmds[..n], r, c);
      SameEffect(t', u', cmds[n], r, c);
    }
  }

  /** Every key of the log is written outright, or none of its failed conditional
      writes expects a value the key comes to hold later. */
  ghost predicate Repeatable(t: Table, cmds: seq<Cmd>) {
    forall r, c :: RepeatableKey(t, cmds, r, c)
  }

  ghost predicate RepeatableKey(t: Table, cmds: seq<Cmd>, r: string, c: string) {
    Rewritten(cmds, r, c) || forall j: nat :: j <= |cmds| ==> QuietBefore(t, cmds, r, c, j)
  }

  /** Such a log can be run again after any part of it, attempts that failed
      included. */
  lemma RepeatableReplay(t: Table, cmds: seq<Cmd>, j: nat)
    requires Repeatable(t, cmds) && j <= |cmds|
    ensures Same(Replay(Replay(t, cmds[..j]), cmds), Replay(t, cmds))
  {
    var start := Replay(t, cmds[..j]);
    forall r, c
      ensures Lookup(Replay(start, cmds), r, c) == Lookup(Replay(t, cmds), r, c)
    {
      assert RepeatableKey(t, cmds, r, c);
      if Rewritten(cmds, r, c) {
        RewrittenForgets(start, t, cmds, r, c);
      } else {
        KeyRebuilt(t, cmds, start, r, c, j);
      }
    }
  }

  /** The special case of a sharp image: the state after one prefix. */
  lemma PrefixReplay(base: Table, cmds: seq<Cmd>, j: nat)
    requires AllSucceed(base, cmds) && j <= |cmds|
    ensures Same(Replay(Replay(base, cmds[..j]), cmds), Replay(base, cmds))
  {
    var start := Replay(base, cmds[..j]);
    forall r, c
      ensures Copied(base, cmds, start, r, c)
    {
      assert CopiedAfter(base, cmds, start, r, c, j);
    }
    FuzzyReplay(base, cmds, start);
  }

  /** The theorem needs the commands to have succeeded: a log of attempts is not
      idempotent. Run once from k = a, the log below ends at k = b; run again
      from there its first conditional write fires and it ends at k = z. */
  lemma AttemptsAreNotIdempotent()
    ensures
      var start: Table := map["r" := map["k" := "a"]];
      var log := [Cput("r", "k", "b", "z"), Cput("r", "k", "a", "b")];
      && !AllSucceed(start, log)
      && Lookup(Replay(start, log), "r", "k") == "b"
      && Lookup(Replay(Replay(start, log), log), "r", "k") == "z"
  {
    var start: Table := map["r" := map["k" := "a"]];
    var p, q := Cput("r", "k", "b", "z"), Cput("r", "k", "a", "b");
    var log := [p, q];
    assert log[..0] == [] && log[..1] == [p] && log == [p] + [q];
    ReplaySnoc(start, [p], q);
    ReplaySnoc(start, [], p);
    assert !Succeeds(Replay(start, log[..0]), log[0]);
    ReplaySnoc(Replay(start, log), [p], q);
    ReplaySnoc(Replay(start, log), [], p);
    assert [] + [p] == [p];
  }

  /** AllSucceed read one command at a time. */
  lemma AllSucceedSnoc(t: Table, cmds: seq<Cmd>, cmd: Cmd)
    requires AllSucceed(t, cmds) && (cmd.IsWrite() ==> Succeeds(Replay(t, cmds), cmd))
    ensures AllSucceed(t, cmds + [cmd])
  {
    forall i | 0 <= i < |cmds| + 1
      ensures (cmds + [cmd])[i].IsWrite() ==> Succeeds(Replay(t, (cmds + [cmd])[..i]), (cmds + [cmd])[i])
    {
      assert (cmds + [cmd])[..i] == cmds[..i];
      assert cmds[..|cmds|] == cmds;
    }
  }
}

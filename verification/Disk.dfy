/** The disk file of a server: one line per table entry in whatever order the
    hash maps are walked, after a line holding the time of writing. */
module Disk {
  import opened Text
  import opened Numbers
  import opened Store
  import opened Wire

  type Key = (string, string)

  // ---- Reading ----

  /** Only a line of exactly three tokens is loaded. */
  function LoadLine(t: Table, line: string): Table {
    var tokens := Pieces(line, ',');
    if |tokens| == 3 then Assign(t, tokens[0], tokens[1], tokens[2]) else t
  }

  function Load(t: Table, lines: seq<string>): Table {
    if lines == [] then t else LoadLine(Load(t, lines[..|lines| - 1]), lines[|lines| - 1])
  }

  // ---- Writing ----

  function EntryLine(t: Table, k: Key): string {
    Commas([k.0, k.1, Lookup(t, k.0, k.1)])
  }

  /** The file after the time stamp and the entries ks were written to it */
  function DumpFile(stamp: nat, t: Table, ks: seq<Key>): string {
    if ks == [] then AppendLine("", NatText(stamp))
    else AppendLine(DumpFile(stamp, t, ks[..|ks| - 1]), EntryLine(t, ks[|ks| - 1]))
  }

  predicate HasEntry(t: Table, k: Key) {
    k.0 in t && k.1 in t[k.0]
  }

  /** ks lists every entry of t exactly once. */
  ghost predicate Enumerates(ks: seq<Key>, t: Table) {
    && (forall i, j :: 0 <= i < j < |ks| ==> ks[i] != ks[j])
    && (forall k :: k in ks <==> HasEntry(t, k))
  }

  ghost predicate IsDumpOf(file: string, t: Table) {
    exists stamp: nat, ks: seq<Key> :: Enumerates(ks, t) && file == DumpFile(stamp, t, ks)
  }

  /** No name or value of t holds a comma or a newline. */
  ghost predicate Clean(t: Table) {
    forall r, c :: r in t && c in t[r] ==> PlainText(r) && PlainText(c) && PlainText(t[r][c])
  }

  predicate PlainText(s: string) {
    ',' !in s && NEWLINE !in s
  }

  // ---- A dump read back ----

  lemma LoadSnoc(t: Table, lines: seq<string>, line: string)
    ensures Load(t, lines + [line]) == LoadLine(Load(t, lines), line)
  {
    assert (lines + [line])[..|lines + [line]| - 1] == lines;
  }

  /** An entry line reads back as its entry, or as nothing if its value is empty. */
  lemma LoadEntryLine(u: Table, t: Table, k: Key)
    requires PlainText(k.0) && PlainText(k.1) && PlainText(Lookup(t, k.0, k.1))
    ensures NEWLINE !in EntryLine(t, k)
    ensures LoadLine(u, EntryLine(t, k)) ==
            if Lookup(t, k.0, k.1) == "" then u else Assign(u, k.0, k.1, Lookup(t, k.0, k.1))
  {
    var fs := [k.0, k.1, Lookup(t, k.0, k.1)];
    PiecesOfJoin(fs, ',');
    CommasNewlineFree(fs);
  }

  /** A line of more or fewer fields loads nothing. */
  lemma LoadOtherLine(u: Table, fs: seq<string>)
    requires |fs| >= 1 && |fs| != 3 && fs[|fs| - 1] != "" && forall i :: 0 <= i < |fs| ==> ',' !in fs[i]
    ensures LoadLine(u, Commas(fs)) == u
  {
    PiecesOfJoin(fs, ',');
  }

  lemma LoadStamp(u: Table, stamp: nat)
    ensures NEWLINE !in NatText(stamp)
    ensures LoadLine(u, NatText(stamp)) == u
  {
    var s := NatText(stamp);
    assert ',' !in s && NEWLINE !in s;
    PiecesOfOne(s, ',');
  }

  lemma LoadFreshDump(u: Table, stamp: nat)
    ensures Terminated(AppendLine("", NatText(stamp)), NEWLINE)
    ensures Load(u, Lines(AppendLine("", NatText(stamp)))) == u
  {
    LoadStamp(u, stamp);
    LinesAppend("", NatText(stamp));
    assert Lines("") == [];
    LoadSnoc(u, [], NatText(stamp));
  }

  ghost predicate PlainKey(t: Table, k: Key) {
    PlainText(k.0) && PlainText(k.1) && PlainText(Lookup(t, k.0, k.1))
  }

  /** The entries ks of t laid over u, empty values left out */
  function Overlay(u: Table, t: Table, ks: seq<Key>): Table {
    if ks == [] then u
    else
      var k, v := ks[|ks| - 1], Overlay(u, t, ks[..|ks| - 1]);
      if Lookup(t, k.0, k.1) == "" then v else Assign(v, k.0, k.1, Lookup(t, k.0, k.1))
  }

  lemma {:induction false} LookupOverlay(u: Table, t: Table, ks: seq<Key>, r: string, c: string)
    ensures
      Lookup(Overlay(u, t, ks), r, c) ==
      if (r, c) in ks && Lookup(t, r, c) != "" then Lookup(t, r, c) else Lookup(u, r, c)
  {
    if ks != [] {
      var rest, k := ks[..|ks| - 1], ks[|ks| - 1];
      LookupOverlay(u, t, rest, r, c);
      assert forall x :: x in ks <==> x in rest || x == k by { assert ks == rest + [k]; }
    }
  }

  lemma {:induction false} LoadDumpFile(u: Table, stamp: nat, t: Table, ks: seq<Key>)
    requires forall k :: k in ks ==> PlainKey(t, k)
    ensures Terminated(DumpFile(stamp, t, ks), NEWLINE)
    ensures Load(u, Lines(DumpFile(stamp, t, ks))) == Overlay(u, t, ks)
  {
    if ks == [] {
      LoadFreshDump(u, stamp);
    } else {
      var file, k := DumpFile(stamp, t, ks[..|ks| - 1]), ks[|ks| - 1];
      LoadDumpFile(u, stamp, t, ks[..|ks| - 1]);
      assert k in ks;
      LoadEntryLine(Load(u, Lines(file)), t, k);
      LinesAppend(file, EntryLine(t, k));
      LoadSnoc(u, Lines(file), EntryLine(t, k));
    }
  }

  /** Loading a dump of a clean table over any table: the non-empty values of the
      dumped table win, everything else is left as it was. */
  lemma LoadDump(file: string, t: Table, u: Table)
    requires Clean(t) && IsDumpOf(file, t)
    ensures Terminated(file, NEWLINE)
    ensures forall r, c ::
      Lookup(Load(u, Lines(file)), r, c) == if Lookup(t, r, c) != "" then Lookup(t, r, c) else Lookup(u, r, c)
  {
    var stamp: nat, ks: seq<Key> :| Enumerates(ks, t) && file == DumpFile(stamp, t, ks);
    forall k | k in ks
      ensures PlainKey(t, k)
    {
      assert HasEntry(t, k);
    }
    LoadDumpFile(u, stamp, t, ks);
    forall r, c
      ensures Lookup(Load(u, Lines(file)), r, c) == if Lookup(t, r, c) != "" then Lookup(t, r, c) else Lookup(u, r, c)
    {
      LookupOverlay(u, t, ks, r, c);
      assert (r, c) in ks <==> HasEntry(t, (r, c));
    }
  }

  // ---- Clean tables stay clean ----

  lemma {:induction false} LoadClean(t: Table, lines: seq<string>)
    requires Clean(t) && forall l :: l in lines ==> NEWLINE !in l
    ensures Clean(Load(t, lines))
  {
    if lines != [] {
      var n := |lines| - 1;
      LoadClean(t, lines[..n]);
      PiecesInherit(lines[n], ',', NEWLINE);
    }
  }

  predicate PlainFields(cmd: Cmd) {
    forall f :: f in Fields(cmd) ==> PlainText(f)
  }

  lemma ApplyClean(t: Table, cmd: Cmd)
    requires Clean(t) && PlainFields(cmd)
    ensures Clean(Apply(t, cmd))
  {
    assert !cmd.Other? ==> cmd.row in Fields(cmd) && cmd.col in Fields(cmd);
    assert cmd.Put? || cmd.Cput? ==> cmd.value in Fields(cmd);
  }

  lemma {:induction false} ReplayClean(t: Table, cmds: seq<Cmd>)
    requires Clean(t) && forall cmd :: cmd in cmds ==> PlainFields(cmd)
    ensures Clean(Replay(t, cmds))
  {
    if cmds != [] {
      var n := |cmds| - 1;
      ReplayClean(t, cmds[..n]);
      ApplyClean(Replay(t, cmds[..n]), cmds[n]);
    }
  }

  /** The commands of any file are plain: lines hold no newline, fields no comma. */
  lemma CmdsOfPlain(lines: seq<string>)
    requires forall l :: l in lines ==> NEWLINE !in l
    ensures forall cmd :: cmd in CmdsOf(lines) ==> PlainFields(cmd)
  {
    forall i | 0 <= i < |lines|
      ensures PlainFields(CmdOf(lines[i]))
    {
      DecodedCommaFree(lines[i]);
      DecodedNewlineFree(lines[i]);
    }
  }
}

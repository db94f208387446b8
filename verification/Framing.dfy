/** Cutting the byte stream of a connection into commands, buffer by buffer. */
module Framing {
  import opened Text

  /** Commands completed and the command still being collected */
  datatype Cutting = Cutting(commands: seq<string>, rest: string)

  // ---- What the stream means ----

  /** Leftmost split of a whole stream at CRLF */
  function CrlfSplit(s: string): Cutting {
    var i := Find(s, CRLF, 0);
    if i == -1 then Cutting([], s)
    else
      var tail := CrlfSplit(s[i + 2..]);
      Cutting([s[..i]] + tail.commands, tail.rest)
  }

  function Concat(chunks: seq<string>): string {
    if chunks == [] then "" else Concat(chunks[..|chunks| - 1]) + chunks[|chunks| - 1]
  }

  // ---- What the read loop does ----

  /** One buffer s, with command carried over from the buffers before. A carriage
      return whose newline is not in the same buffer is kept as a character. */
  function Feed(command: string, s: string): Cutting
    decreases |s|
  {
    if s == [] then Cutting([], command)
    else if s[0] == '\r' && |s| > 1 && s[1] == '\n' then
      var tail := Feed("", s[2..]);
      Cutting([command] + tail.commands, tail.rest)
    else Feed(command + [s[0]], s[1..])
  }

  function FeedAll(chunks: seq<string>): Cutting {
    if chunks == [] then Cutting([], "")
    else
      var before := FeedAll(chunks[..|chunks| - 1]);
      var last := Feed(before.rest, chunks[|chunks| - 1]);
      Cutting(before.commands + last.commands, last.rest)
  }

  /** A buffer boundary between a carriage return and its newline */
  predicate Torn(before: string, chunk: string) {
    before != [] && before[|before| - 1] == '\r' && chunk != [] && chunk[0] == '\n'
  }

  ghost predicate NeverTorn(chunks: seq<string>) {
    forall k :: 0 <= k < |chunks| ==> !Torn(Concat(chunks[..k]), chunks[k])
  }

  // ---- One buffer ----

  lemma FindShift(s: string, c: char)
    requires !(c == '\r' && s != [] && s[0] == '\n')
    ensures Find([c] + s, CRLF, 0) == if Find(s, CRLF, 0) == -1 then -1 else Find(s, CRLF, 0) + 1
  {
    var t, i := [c] + s, Find(s, CRLF, 0);
    forall k: nat
      ensures At(t, CRLF, k) <==> k > 0 && At(s, CRLF, k - 1)
    {
      if k > 0 && k + 2 <= |t| {
        assert t[k..k + 2] == s[k - 1..k + 1];
      } else if k == 0 && |t| >= 2 {
        assert t[0..2] == [t[0], t[1]];
      }
    }
    if i != -1 {
      FindIs(t, CRLF, 0, i + 1);
    }
  }

  /** The text c in front of a cutting */
  function Prefixed(c: string, g: Cutting): Cutting {
    if g.commands == [] then Cutting([], c + g.rest)
    else Cutting([c + g.commands[0]] + g.commands[1..], g.rest)
  }

  lemma PrefixedNothing(g: Cutting)
    ensures Prefixed("", g) == g
  {
    assert "" + g.rest == g.rest;
    if g.commands != [] {
      assert "" + g.commands[0] == g.commands[0];
      assert [g.commands[0]] + g.commands[1..] == g.commands;
    }
  }

  lemma PrefixedTwice(a: string, b: string, g: Cutting)
    ensures Prefixed(a, Prefixed(b, g)) == Prefixed(a + b, g)
  {
    assert a + (b + g.rest) == a + b + g.rest;
    if g.commands != [] {
      assert a + (b + g.commands[0]) == a + b + g.commands[0];
      assert ([b + g.commands[0]] + g.commands[1..])[1..] == g.commands[1..];
    }
  }

  /** One more character in front that does not complete a CRLF */
  lemma SplitShift(s: string, c: char)
    requires !(c == '\r' && s != [] && s[0] == '\n')
    ensures CrlfSplit([c] + s) == Prefixed([c], CrlfSplit(s))
  {
    FindShift(s, c);
    var t, i := [c] + s, Find(s, CRLF, 0);
    if i != -1 {
      assert t[i + 1 + 2..] == s[i + 2..];
      assert t[..i + 1] == [c] + s[..i];
      var tail := CrlfSplit(s[i + 2..]);
      assert ([s[..i]] + tail.commands)[1..] == tail.commands;
    }
  }

  /** Feeding s behind a command is the leftmost split of s with the command put in
      front. */
  lemma {:induction false} FeedIsSplit(command: string, s: string)
    ensures Feed(command, s) == Prefixed(command, CrlfSplit(s))
    decreases |s|
  {
    if s == [] {
      assert command + s == command;
    } else if s[0] == '\r' && |s| > 1 && s[1] == '\n' {
      assert At(s, CRLF, 0);
      FindIs(s, CRLF, 0, 0);
      FeedIsSplit("", s[2..]);
      PrefixedNothing(CrlfSplit(s[2..]));
      assert s[..0] == "" && command + "" == command;
      var tail := CrlfSplit(s[2..]);
      assert ([""] + tail.commands)[1..] == tail.commands;
    } else {
      FeedIsSplit(command + [s[0]], s[1..]);
      assert s == [s[0]] + s[1..];
      SplitShift(s[1..], s[0]);
      PrefixedTwice(command, [s[0]], CrlfSplit(s[1..]));
    }
  }

  lemma FeedWhole(s: string)
    ensures Feed("", s) == CrlfSplit(s)
  {
    FeedIsSplit("", s);
    PrefixedNothing(CrlfSplit(s));
  }

  // ---- Several buffers ----

  lemma {:induction false} FeedConcat(command: string, a: string, b: string)
    requires !Torn(a, b)
    ensures
      var x := Feed(command, a);
      Feed(command, a + b) == Cutting(x.commands + Feed(x.rest, b).commands, Feed(x.rest, b).rest)
    decreases |a|
  {
    if a == [] {
      assert a + b == b;
      assert [] + Feed(command, b).commands == Feed(command, b).commands;
    } else if a[0] == '\r' && |a| > 1 && a[1] == '\n' {
      assert (a + b)[2..] == a[2..] + b;
      FeedConcat("", a[2..], b);
      var x := Feed("", a[2..]);
      assert [command] + (x.commands + Feed(x.rest, b).commands) == [command] + x.commands + Feed(x.rest, b).commands;
    } else {
      assert (a + b)[1..] == a[1..] + b;
      assert (a + b)[0] == a[0] && (|a| > 1 ==> (a + b)[1] == a[1]);
      FeedConcat(command + [a[0]], a[1..], b);
    }
  }

  /** How many CRLF a string holds */
  function Pairs(s: string): nat {
    if |s| < 2 then 0 else (if s[0] == '\r' && s[1] == '\n' then 1 else 0) + Pairs(s[1..])
  }

  lemma {:induction false} FeedCount(command: string, s: string)
    ensures |Feed(command, s).commands| == Pairs(s)
    decreases |s|
  {
    if s != [] {
      if s[0] == '\r' && |s| > 1 && s[1] == '\n' {
        FeedCount("", s[2..]);
        assert s[1..][1..] == s[2..];
        assert Pairs(s[1..]) == Pairs(s[2..]);
      } else {
        FeedCount(command + [s[0]], s[1..]);
      }
    }
  }

  lemma {:induction false} PairsConcat(a: string, b: string)
    ensures Pairs(a + b) == Pairs(a) + Pairs(b) + if Torn(a, b) then 1 else 0
  {
    if a == [] {
      assert a + b == b;
    } else if |a| == 1 {
      assert (a + b)[1..] == b;
    } else {
      assert (a + b)[1..] == a[1..] + b;
      PairsConcat(a[1..], b);
    }
  }

  /** Buffering never finds more commands than there are, and loses one for every
      torn CRLF. */
  lemma {:induction false} BufferedCount(chunks: seq<string>)
    ensures |FeedAll(chunks).commands| <= Pairs(Concat(chunks))
    ensures |FeedAll(chunks).commands| == Pairs(Concat(chunks)) <==> NeverTorn(chunks)
  {
    if chunks != [] {
      var n := |chunks| - 1;
      BufferedCount(chunks[..n]);
      FeedCount(FeedAll(chunks[..n]).rest, chunks[n]);
      PairsConcat(Concat(chunks[..n]), chunks[n]);
      NeverTornSnoc(chunks);
    }
  }

  lemma NeverTornSnoc(chunks: seq<string>)
    requires chunks != []
    ensures
      var n := |chunks| - 1;
      NeverTorn(chunks) <==> NeverTorn(chunks[..n]) && !Torn(Concat(chunks[..n]), chunks[n])
  {
    var n := |chunks| - 1;
    assert forall k :: 0 <= k < n ==> chunks[..n][..k] == chunks[..k] && chunks[..n][k] == chunks[k];
  }

  lemma {:induction false} BufferedWhole(chunks: seq<string>)
    requires NeverTorn(chunks)
    ensures FeedAll(chunks) == CrlfSplit(Concat(chunks))
  {
    if chunks == [] {
      FeedWhole("");
    } else {
      var n := |chunks| - 1;
      NeverTornSnoc(chunks);
      BufferedWhole(chunks[..n]);
      FeedWhole(Concat(chunks[..n]));
      FeedConcat("", Concat(chunks[..n]), chunks[n]);
      FeedWhole(Concat(chunks));
    }
  }

  /** Framing: the commands extracted buffer by buffer are those of the whole stream
      exactly when no buffer boundary falls inside a CRLF. */
  lemma FramingExact(chunks: seq<string>)
    ensures FeedAll(chunks) == CrlfSplit(Concat(chunks)) <==> NeverTorn(chunks)
  {
    if NeverTorn(chunks) {
      BufferedWhole(chunks);
    } else {
      BufferedCount(chunks);
      FeedWhole(Concat(chunks));
      FeedCount("", Concat(chunks));
    }
  }

  /** The command buffer of one connection */
  class Connection {
    var command: string

    constructor ()
      ensures command == ""
    {
      command := "";
    }

    /** The loop of threadFunc over what one read returned */
    method Read(buffer: string) returns (commands: seq<string>)
      modifies this
      ensures Cutting(commands, command) == Feed(old(command), buffer)
    {
      commands := [];
      var i := 0;
      while i < |buffer|
        invariant 0 <= i <= |buffer|
        invariant
          var tail := Feed(command, buffer[i..]);
          Feed(old(command), buffer) == Cutting(commands + tail.commands, tail.rest)
      {
        var ch := buffer[i];
        ghost var tail := Feed(command, buffer[i..]);
        if ch == '\r' {
          if i + 1 < |buffer| && buffer[i + 1] == '\n' {
            assert buffer[i..][2..] == buffer[i + 2..];
            assert commands + tail.commands == commands + [command] + Feed("", buffer[i + 2..]).commands;
            commands := commands + [command];
            command := "";
            i := i + 2;
          } else {
            assert buffer[i..][1..] == buffer[i + 1..];
            command := command + ['\r'];
            i := i + 1;
          }
        } else {
          assert buffer[i..][1..] == buffer[i + 1..];
          command := command + [ch];
          i := i + 1;
        }
      }
      assert buffer[|buffer|..] == [];
    }
  }
}

/** The string routines the programs share: find, rfind, and reading fields or
    lines up to a delimiter as std::getline does. */
module Text {
  const NEWLINE: char := '\n'
  const CRLF: string := "\r\n"

  lemma Regroup<T>(a: seq<T>, b: seq<T>, c: seq<T>)
    ensures a + (b + c) == a + b + c
  {
  }

  // ---- Searching ----

  predicate At<T(==)>(s: seq<T>, needle: seq<T>, i: nat) {
    i + |needle| <= |s| && s[i..i + |needle|] == needle
  }

  /** Leftmost occurrence at or after from, or -1 (std::string::npos) */
  function Find<T(==)>(s: seq<T>, needle: seq<T>, from: nat): (r: int)
    ensures r == -1 || (from <= r <= |s| && At(s, needle, r))
    ensures forall k: nat {:trigger At(s, needle, k)} :: from <= k && (r == -1 || k < r) ==> !At(s, needle, k)
    decreases |s| - from
  {
    if from + |needle| > |s| then -1
    else if At(s, needle, from) then from
    else Find(s, needle, from + 1)
  }

  /** Rightmost occurrence at or before upto, or -1 */
  function RFind<T(==)>(s: seq<T>, needle: seq<T>, upto: nat): (r: int)
    ensures r == -1 || (r <= upto && r >= 0 && At(s, needle, r))
    ensures forall k: nat {:trigger At(s, needle, k)} :: k <= upto && k > r ==> !At(s, needle, k)
  {
    if At(s, needle, upto) then upto
    else if upto == 0 then -1
    else RFind(s, needle, upto - 1)
  }

  /** The leftmost occurrence is unique. */
  lemma FindIs<T>(s: seq<T>, needle: seq<T>, from: nat, i: nat)
    requires from <= i && At(s, needle, i)
    requires forall k: nat {:trigger At(s, needle, k)} :: from <= k < i ==> !At(s, needle, k)
    ensures Find(s, needle, from) == i
  {
  }

  /** Position of the first c in s, or |s| */
  function Until<T(==)>(s: seq<T>, c: T): (n: nat)
    ensures n <= |s|
    ensures n < |s| ==> s[n] == c
    ensures forall k :: 0 <= k < n ==> s[k] != c
  {
    if s == [] || s[0] == c then 0 else 1 + Until(s[1..], c)
  }

  lemma UntilIs<T>(s: seq<T>, c: T, n: nat)
    requires n <= |s| && (n < |s| ==> s[n] == c)
    requires forall k :: 0 <= k < n ==> s[k] != c
    ensures Until(s, c) == n
  {
  }

  /** find for a single character: its first position, or -1 */
  function IndexOf<T(==)>(s: seq<T>, c: T): int {
    if Until(s, c) == |s| then -1 else Until(s, c)
  }

  lemma IndexIs<T>(s: seq<T>, c: T, n: nat)
    requires n < |s| && s[n] == c && c !in s[..n]
    ensures IndexOf(s, c) == n
  {
    assert forall k :: 0 <= k < n ==> s[k] == s[..n][k];
    UntilIs(s, c, n);
  }

  lemma IndexNone<T>(s: seq<T>, c: T)
    requires c !in s
    ensures IndexOf(s, c) == -1
  {
    UntilIs(s, c, |s|);
  }

  // ---- std::getline in a loop ----

  /** The pieces a loop of getline(stream, piece, d) reads from s. A delimiter at
      the very end produces no empty last piece. */
  function Pieces<T(==)>(s: seq<T>, d: T): (ps: seq<seq<T>>)
    ensures forall p :: p in ps ==> d !in p
    ensures s == [] <==> ps == []
  {
    if s == [] then []
    else
      var n := Until(s, d);
      if n == |s| then [s] else [s[..n]] + Pieces(s[n + 1..], d)
  }

  /** The loop itself */
  method ReadPieces<T(==)>(s: seq<T>, d: T) returns (ps: seq<seq<T>>)
    ensures ps == Pieces(s, d)
  {
    ps := [];
    var rest := s;
    while rest != []
      invariant ps + Pieces(rest, d) == Pieces(s, d)
      decreases |rest|
    {
      var n := Until(rest, d);
      if n == |rest| {
        ps := ps + [rest];
        return;
      }
      ghost var p, more := rest[..n], Pieces(rest[n + 1..], d);
      assert Pieces(rest, d) == [p] + more;
      Regroup(ps, [p], more);
      ps := ps + [rest[..n]];
      rest := rest[n + 1..];
    }
  }

  predicate Terminated<T(==)>(s: seq<T>, d: T) {
    s == [] || s[|s| - 1] == d
  }

  lemma PiecesOfOne<T>(p: seq<T>, d: T)
    requires d !in p && p != []
    ensures Pieces(p, d) == [p]
  {
    UntilIs(p, d, |p|);
  }

  lemma PiecesCons<T>(p: seq<T>, d: T, rest: seq<T>)
    requires d !in p
    ensures Pieces(p + [d] + rest, d) == [p] + Pieces(rest, d)
  {
    var s := p + [d] + rest;
    UntilIs(s, d, |p|);
    assert s[..|p|] == p && s[|p| + 1..] == rest;
  }

  /** Splitting after a terminated prefix splits the two parts separately. */
  lemma {:induction false} PiecesAppend<T>(s: seq<T>, t: seq<T>, d: T)
    requires Terminated(s, d)
    ensures Pieces(s + t, d) == Pieces(s, d) + Pieces(t, d)
    decreases |s|
  {
    if s == [] {
      assert s + t == t;
    } else {
      var n := Until(s, d);
      var p, rest := s[..n], s[n + 1..];
      assert s == p + [d] + rest;
      PiecesAppend(rest, t, d);
      FirstPieceThen(s, p, rest, t, d);
    }
  }

  lemma FirstPieceThen<T>(s: seq<T>, p: seq<T>, rest: seq<T>, t: seq<T>, d: T)
    requires s == p + [d] + rest && d !in p && Pieces(rest + t, d) == Pieces(rest, d) + Pieces(t, d)
    ensures Pieces(s + t, d) == Pieces(s, d) + Pieces(t, d)
  {
    PiecesCons(p, d, rest);
    PiecesCons(p, d, rest + t);
    Regroup(p + [d], rest, t);
    Regroup([p], Pieces(rest, d), Pieces(t, d));
  }

  /** Appending one terminated piece appends it to the pieces read back. */
  lemma PiecesSnoc<T>(s: seq<T>, p: seq<T>, d: T)
    requires Terminated(s, d) && d !in p
    ensures Pieces(s + p + [d], d) == Pieces(s, d) + [p]
    ensures Terminated(s + p + [d], d)
  {
    assert s + p + [d] == s + (p + [d] + []);
    assert Pieces<T>([], d) == [];
    PiecesAppend(s, p + [d] + [], d);
    PiecesCons(p, d, []);
  }

  /** The pieces with d between them */
  function Join<T>(ps: seq<seq<T>>, d: T): seq<T> {
    if ps == [] then [] else if |ps| == 1 then ps[0] else ps[0] + [d] + Join(ps[1..], d)
  }

  lemma {:induction false} JoinSnoc<T>(ps: seq<seq<T>>, p: seq<T>, d: T)
    requires |ps| >= 1
    ensures Join(ps + [p], d) == Join(ps, d) + [d] + p
  {
    if |ps| > 1 {
      JoinSnoc(ps[1..], p, d);
      assert (ps + [p])[1..] == ps[1..] + [p];
    } else {
      assert (ps + [p])[1..] == [p];
    }
  }

  /** Reading joined pieces back drops an empty last piece and keeps every other
      one. */
  lemma {:induction false} PiecesOfJoin<T>(ps: seq<seq<T>>, d: T)
    requires |ps| >= 1
    requires forall i :: 0 <= i < |ps| ==> d !in ps[i]
    ensures Pieces(Join(ps, d), d) == if ps[|ps| - 1] == [] then ps[..|ps| - 1] else ps
  {
    if |ps| == 1 {
      if ps[0] != [] {
        PiecesOfOne(ps[0], d);
      }
    } else {
      PiecesOfJoin(ps[1..], d);
      PiecesCons(ps[0], d, Join(ps[1..], d));
      HeadAndTail(ps);
    }
  }

  lemma HeadAndTail<T>(ps: seq<T>)
    requires |ps| >= 2
    ensures ps[1..][|ps[1..]| - 1] == ps[|ps| - 1]
    ensures [ps[0]] + ps[1..] == ps
    ensures [ps[0]] + ps[1..][..|ps[1..]| - 1] == ps[..|ps| - 1]
  {
  }

  function Lines(file: string): (ls: seq<string>)
    ensures forall l :: l in ls ==> NEWLINE !in l
  {
    Pieces(file, NEWLINE)
  }

  /** file << line << "\n" on a file opened for appending */
  function AppendLine(file: string, line: string): string {
    file + line + [NEWLINE]
  }

  /** What getline reads back after one append; a line holding a newline would
      come back as several. */
  lemma LinesAppend(file: string, line: string)
    requires Terminated(file, NEWLINE) && NEWLINE !in line
    ensures Lines(AppendLine(file, line)) == Lines(file) + [line]
    ensures Terminated(AppendLine(file, line), NEWLINE)
  {
    PiecesSnoc(file, line, NEWLINE);
  }
}

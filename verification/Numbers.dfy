/** std::to_string on a non-negative int and std::stoi. */
module Numbers {
  const INT_MAX: int := 0x7FFF_FFFF
  const INT_MIN: int := -0x8000_0000

  predicate IsDigit(c: char) {
    '0' <= c <= '9'
  }

  predicate IsSpace(c: char) {
    c == ' ' || '\t' <= c <= '\r'
  }

  function DigitChar(d: nat): (c: char)
    requires d < 10
    ensures IsDigit(c) && DigitValue(c) == d
  {
    '0' + d as char
  }

  function DigitValue(c: char): nat
    requires IsDigit(c)
  {
    (c - '0') as nat
  }

  function NatText(n: nat): (s: string)
    ensures |s| >= 1
    ensures forall c :: c in s ==> IsDigit(c)
  {
    if n < 10 then [DigitChar(n)] else NatText(n / 10) + [DigitChar(n % 10)]
  }

  function IntText(n: int): string {
    if n < 0 then "-" + NatText(-n) else NatText(n)
  }

  /** Length of the digits s starts with */
  function DigitRun(s: string): (n: nat)
    ensures n <= |s|
    ensures forall k :: 0 <= k < n ==> IsDigit(s[k])
    ensures n < |s| ==> !IsDigit(s[n])
  {
    if s == [] || !IsDigit(s[0]) then 0 else 1 + DigitRun(s[1..])
  }

  function DigitsValue(ds: string): nat
    requires forall c :: c in ds ==> IsDigit(c)
  {
    if ds == [] then 0 else 10 * DigitsValue(ds[..|ds| - 1]) + DigitValue(ds[|ds| - 1])
  }

  function SkipSpaces(s: string): string {
    if s != [] && IsSpace(s[0]) then SkipSpaces(s[1..]) else s
  }

  datatype Parsed = Number(value: int) | Throws

  /** Leading blanks, one optional sign, then the longest run of digits; no
      digits or a value outside int throws. */
  function Stoi(s: string): Parsed {
    var t := SkipSpaces(s);
    var negative := t != [] && t[0] == '-';
    var u := if t != [] && (t[0] == '-' || t[0] == '+') then t[1..] else t;
    var n := DigitRun(u);
    if n == 0 then Throws
    else
      var v: int := DigitsValue(u[..n]);
      var w := if negative then -v else v;
      if INT_MIN <= w <= INT_MAX then Number(w) else Throws
  }

  lemma {:induction false} DigitsValueOfText(n: nat)
    ensures DigitsValue(NatText(n)) == n
  {
    if n >= 10 {
      DigitsValueOfText(n / 10);
      assert NatText(n)[..|NatText(n)| - 1] == NatText(n / 10);
    } else {
      assert NatText(n)[..0] == [];
    }
  }

  lemma {:induction false} DigitRunOfText(ds: string, rest: string)
    requires forall c :: c in ds ==> IsDigit(c)
    requires rest == [] || !IsDigit(rest[0])
    ensures DigitRun(ds + rest) == |ds|
  {
    if ds == [] {
      assert ds + rest == rest;
    } else {
      assert (ds + rest)[1..] == ds[1..] + rest;
      DigitRunOfText(ds[1..], rest);
    }
  }

  lemma DigitsRead(n: nat, rest: string)
    requires rest == [] || !IsDigit(rest[0])
    ensures
      var ds := NatText(n);
      IsDigit((ds + rest)[0]) && DigitRun(ds + rest) == |ds| && (ds + rest)[..|ds|] == ds && DigitsValue(ds) == n
  {
    var ds := NatText(n);
    assert (ds + rest)[0] == ds[0] && ds[0] in ds;
    DigitRunOfText(ds, rest);
    assert (ds + rest)[..|ds|] == ds;
    DigitsValueOfText(n);
  }

  /** What stoi makes of a text u that starts with digits, behind a minus sign or not */
  lemma StoiDigits(u: string, ds: string, n: nat)
    requires u != "" && IsDigit(u[0]) && DigitRun(u) == |ds| && |ds| > 0 && u[..|ds|] == ds
    requires (forall c :: c in ds ==> IsDigit(c)) && DigitsValue(ds) == n
    ensures Stoi(u) == if n <= INT_MAX then Number(n) else Throws
    ensures Stoi("-" + u) == if INT_MIN <= 0 - n then Number(0 - n) else Throws
  {
    assert ("-" + u)[1..] == u;
  }

  /** stoi on any number that was printed, whatever non-digit follows it: that number,
      or it throws because the number is outside int. */
  lemma StoiPrinted(n: int, rest: string)
    requires rest == [] || !IsDigit(rest[0])
    ensures Stoi(IntText(n) + rest) == if INT_MIN <= n <= INT_MAX then Number(n) else Throws
  {
    if n < 0 {
      MinusFirst(NatText(-n), rest);
      StoiSigned(-n, rest);
    } else {
      StoiSigned(n, rest);
    }
  }

  lemma MinusFirst(ds: string, rest: string)
    ensures "-" + ds + rest == "-" + (ds + rest)
  {
  }

  lemma StoiSigned(n: nat, rest: string)
    requires rest == [] || !IsDigit(rest[0])
    ensures Stoi(NatText(n) + rest) == if n <= INT_MAX then Number(n) else Throws
    ensures Stoi("-" + (NatText(n) + rest)) == if INT_MIN <= 0 - n then Number(0 - n) else Throws
  {
    DigitsRead(n, rest);
    StoiDigits(NatText(n) + rest, NatText(n), n);
  }

  /** stoi reads back what to_string printed, whatever non-digit follows it. */
  lemma StoiRoundTrip(n: nat, rest: string)
    requires n <= INT_MAX
    requires rest == [] || !IsDigit(rest[0])
    ensures Stoi(NatText(n) + rest) == Number(n)
  {
    StoiSigned(n, rest);
  }

  /** On a text that starts with neither a blank, a sign nor a digit it throws. */
  lemma StoiNoNumber(s: string)
    requires s == "" || !(IsDigit(s[0]) || IsSpace(s[0]) || s[0] == '+' || s[0] == '-')
    ensures Stoi(s) == Throws
  {
  }

  /** A plus sign in front of digits, and blanks in front of anything, do not count. */
  lemma StoiSkips(c: char, s: string)
    requires IsSpace(c) || (c == '+' && s != "" && IsDigit(s[0]))
    ensures Stoi([c] + s) == Stoi(s)
  {
    assert ([c] + s)[1..] == s;
  }
}

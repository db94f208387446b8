/** Percent-encoding of form values (sections 2.1 and 2.3 of RFC 3986), its decoder
    and the parser of query strings. */
module UrlCodec {
  import opened Text
  import opened Numbers

  type Octet = c: char | c < '\U{0100}' witness 'a'
  type Octets = seq<Octet>

  // ---- Encoding ----

  predicate IsAlnum(c: char) {
    'a' <= c <= 'z' || 'A' <= c <= 'Z' || '0' <= c <= '9'
  }

  predicate Unreserved(c: char) {
    IsAlnum(c) || c == '-' || c == '_' || c == '.' || c == '~'
  }

  /** One upper-case hexadecimal digit */
  function HexChar(d: nat): (c: Octet)
    requires d < 16
    ensures IsHex(c) && HexValue(c) == d
  {
    if d < 10 then '0' + d as char else 'A' + (d - 10) as char
  }

  function EncodeChar(c: Octet): (r: Octets)
    ensures |r| == 1 || |r| == 3
  {
    if Unreserved(c) then [c] else ['%', HexChar(c as int / 16), HexChar(c as int % 16)]
  }

  function UrlEncode(value: Octets): Octets {
    if value == [] then [] else EncodeChar(value[0]) + UrlEncode(value[1..])
  }

  // ---- Decoding ----

  predicate IsHex(c: char) {
    '0' <= c <= '9' || 'a' <= c <= 'f' || 'A' <= c <= 'F'
  }

  function HexValue(c: char): nat
    requires IsHex(c)
  {
    if c <= '9' then (c - '0') as nat else if c <= 'F' then (c - 'A') as nat + 10 else (c - 'a') as nat + 10
  }

  datatype Extracted = Value(value: int) | Fails

  /** stream >> hex >> int on a text of at most two characters: blanks, a sign and a
      digit are accepted as well as two digits; 0x without digits is not. */
  function ExtractHex(t: string): Extracted {
    var u := SkipSpaces(t);
    var negative := u != [] && u[0] == '-';
    var w := if u != [] && (u[0] == '-' || u[0] == '+') then u[1..] else u;
    if w == [] || !IsHex(w[0]) then Fails
    else if |w| >= 2 && w[0] == '0' && (w[1] == 'x' || w[1] == 'X') then Fails
    else
      var v: int := if |w| >= 2 && IsHex(w[1]) then 16 * HexValue(w[0]) + HexValue(w[1]) else HexValue(w[0]);
      Value(if negative then -v else v)
  }

  /** static_cast<char> */
  function ToOctet(v: int): Octet {
    (v % 256) as char
  }

  function Least(a: nat, b: nat): nat {
    if a <= b then a else b
  }

  /** A percent sign with an unreadable number after it is dropped by itself. */
  function Decode(s: Octets): Octets
    decreases |s|
  {
    if s == [] then []
    else if s[0] == '%' then
      match ExtractHex(s[1..Least(3, |s|)])
      case Value(v) => [ToOctet(v)] + Decode(s[Least(3, |s|)..])
      case Fails => Decode(s[1..])
    else if s[0] == '+' then [' '] + Decode(s[1..])
    else [s[0]] + Decode(s[1..])
  }

  // ---- Round trip ----

  /** What an encoded text looks like: unreserved characters and percent triplets */
  predicate IsEncoded(s: string) {
    if s == [] then true
    else if s[0] == '%' then |s| >= 3 && UpperHex(s[1]) && UpperHex(s[2]) && IsEncoded(s[3..])
    else Unreserved(s[0]) && IsEncoded(s[1..])
  }

  predicate UpperHex(c: char) {
    '0' <= c <= '9' || 'A' <= c <= 'F'
  }

  lemma {:induction false} EncodeShape(value: Octets)
    ensures IsEncoded(UrlEncode(value))
  {
    if value != [] {
      EncodeShape(value[1..]);
      var e, rest := EncodeChar(value[0]), UrlEncode(value[1..]);
      if |e| == 1 {
        assert (e + rest)[1..] == rest;
      } else {
        assert (e + rest)[3..] == rest;
      }
    }
  }

  lemma ExtractDigits(t: string)
    requires |t| == 2 && IsHex(t[0]) && IsHex(t[1])
    ensures ExtractHex(t) == Value(16 * HexValue(t[0]) + HexValue(t[1]))
  {
  }

  lemma DecodeOne(c: Octet, rest: Octets)
    ensures Decode(EncodeChar(c) + rest) == [c] + Decode(rest)
  {
    var s := EncodeChar(c) + rest;
    if Unreserved(c) {
      assert s[0] == c && s[1..] == rest;
    } else {
      var hi, lo := HexChar(c as int / 16), HexChar(c as int % 16);
      ExtractDigits([hi, lo]);
      assert s == ['%'] + [hi, lo] + rest;
      assert 16 * (c as int / 16) + c as int % 16 == c as int;
      DecodeHit(s, [hi, lo], rest, c as int);
    }
  }

  lemma DecodeHit(s: Octets, t: Octets, rest: Octets, v: int)
    requires s == ['%'] + t + rest && |t| == 2 && ExtractHex(t) == Value(v)
    ensures Decode(s) == [ToOctet(v)] + Decode(rest)
  {
    assert s[1..Least(3, |s|)] == t && s[Least(3, |s|)..] == rest;
    var whole, more := Decode(s), Decode(rest);
    assert whole == [ToOctet(v)] + more;
  }

  /** Decoding undoes encoding on every byte string. */
  lemma {:induction false} DecodeEncode(value: Octets)
    ensures Decode(UrlEncode(value)) == value
  {
    if value != [] {
      DecodeEncode(value[1..]);
      DecodeOne(value[0], UrlEncode(value[1..]));
    }
  }

  /** Encoding loses nothing. */
  lemma EncodeInjective(a: Octets, b: Octets)
    requires UrlEncode(a) == UrlEncode(b)
    ensures a == b
  {
    DecodeEncode(a);
    DecodeEncode(b);
  }

  lemma {:induction false} EncodedAvoids(s: string, d: char)
    requires IsEncoded(s) && !Unreserved(d) && d != '%'
    ensures d !in s
    decreases |s|
  {
    if s != [] {
      if s[0] == '%' {
        EncodedAvoids(s[3..], d);
        assert s == [s[0], s[1], s[2]] + s[3..];
      } else {
        EncodedAvoids(s[1..], d);
      }
    }
  }

  // ---- What single characters become ----

  const UPPER_DIGITS: string := "0123456789ABCDEF"
  const LOWER_DIGITS: string := "0123456789abcdef"

  /** Encoding goes character by character: letters, digits and four marks stay, every
      other byte becomes a percent sign and two upper-case digits. */
  lemma EncodeOne(c: Octet, rest: Octets)
    ensures
      UrlEncode([c] + rest) ==
        (if 'a' <= c <= 'z' || 'A' <= c <= 'Z' || '0' <= c <= '9' || c in "-_.~" then [c]
         else ['%', UPPER_DIGITS[c as int / 16], UPPER_DIGITS[c as int % 16]]) + UrlEncode(rest)
  {
    assert ([c] + rest)[1..] == rest;
    UpperDigit(c as int / 16);
    UpperDigit(c as int % 16);
  }

  lemma UpperDigit(d: nat)
    requires d < 16
    ensures HexChar(d) == UPPER_DIGITS[d]
  {
  }

  predicate IsDigitFor(c: char, d: nat) {
    d < 16 && (c == UPPER_DIGITS[d] || c == LOWER_DIGITS[d])
  }

  lemma DigitHasValue(c: char, d: nat)
    requires IsDigitFor(c, d)
    ensures IsHex(c) && HexValue(c) == d
  {
  }

  /** s is one way to write the byte v: two digits of either case behind a percent sign,
      the byte itself, or a plus sign for a blank. */
  ghost predicate Writes(s: Octets, v: Octet) {
    || (|s| == 3 && s[0] == '%' && IsDigitFor(s[1], v as int / 16) && IsDigitFor(s[2], v as int % 16))
    || (s == [v] && v != '%' && v != '+')
    || (s == ['+'] && v == ' ')
  }

  lemma DecodePair(a: Octet, b: Octet, rest: Octets, v: int)
    requires ExtractHex([a, b]) == Value(v)
    ensures Decode(['%', a, b] + rest) == [ToOctet(v)] + Decode(rest)
  {
    assert ['%', a, b] + rest == ['%'] + [a, b] + rest;
    DecodeHit(['%', a, b] + rest, [a, b], rest, v);
  }

  lemma DecodeTriplet(a: Octet, b: Octet, v: Octet, rest: Octets)
    requires IsDigitFor(a, v as int / 16) && IsDigitFor(b, v as int % 16)
    ensures Decode(['%', a, b] + rest) == [v] + Decode(rest)
  {
    DigitHasValue(a, v as int / 16);
    DigitHasValue(b, v as int % 16);
    ExtractDigits([a, b]);
    OctetBack(v);
    DecodePair(a, b, rest, v as int);
  }

  lemma OctetBack(v: Octet)
    ensures 16 * (v as int / 16) + v as int % 16 == v as int && ToOctet(v as int) == v
  {
  }

  lemma DecodeWritten(s: Octets, v: Octet, rest: Octets)
    requires Writes(s, v)
    ensures Decode(s + rest) == [v] + Decode(rest)
  {
    if |s| == 3 {
      assert s == ['%', s[1], s[2]];
      DecodeTriplet(s[1], s[2], v, rest);
    } else {
      assert (s + rest)[1..] == rest;
    }
  }

  /** pieces[i] is one way to write value[i]. */
  ghost predicate AllWrite(pieces: seq<Octets>, value: Octets) {
    |pieces| == |value| && forall i :: 0 <= i < |value| ==> Writes(pieces[i], value[i])
  }

  function Flat(pieces: seq<Octets>): Octets
    decreases |pieces|
  {
    if pieces == [] then [] else pieces[0] + Flat(pieces[1..])
  }

  /** However each byte of a value is written, plus signs for blanks and lower-case
      digits included, decoding gives the value. */
  lemma {:induction false} DecodeAnyWriting(pieces: seq<Octets>, value: Octets)
    requires AllWrite(pieces, value)
    ensures Decode(Flat(pieces)) == value
    decreases |pieces|
  {
    if pieces != [] {
      assert AllWrite(pieces[1..], value[1..]);
      DecodeAnyWriting(pieces[1..], value[1..]);
      DecodeWritten(pieces[0], value[0], Flat(pieces[1..]));
    }
  }

  /** A percent sign takes the next two characters even if only the first of them is a
      digit, save 0x: that digit stands for a byte and the other character is gone. */
  lemma DecodeDigitThen(c: Octet, d: nat, x: Octet, rest: Octets)
    requires IsDigitFor(c, d) && !IsHex(x) && !(c == '0' && (x == 'x' || x == 'X'))
    ensures Decode(['%', c, x] + rest) == [d as char] + Decode(rest)
  {
    DigitHasValue(c, d);
    ExtractBefore(c, x, d);
    OctetOf(d);
    DecodePair(c, x, rest, d);
  }

  lemma ExtractBefore(c: Octet, x: Octet, d: nat)
    requires IsHex(c) && HexValue(c) == d && !IsHex(x) && !(c == '0' && (x == 'x' || x == 'X'))
    ensures ExtractHex([c, x]) == Value(d)
  {
    assert SkipSpaces([c, x]) == [c, x];
  }

  /** So it does if only the second is, behind a blank or a sign; behind a minus sign
      the byte is 256 less the digit. */
  lemma DecodeDigitBehind(x: Octet, c: Octet, d: nat, rest: Octets)
    requires IsDigitFor(c, d) && (IsSpace(x) || x == '+' || x == '-')
    ensures Decode(['%', x, c] + rest) == [(if x == '-' then (256 - d) % 256 else d) as char] + Decode(rest)
  {
    DigitHasValue(c, d);
    ExtractBehind(x, c);
    OctetOf(d);
    DecodePair(x, c, rest, if x == '-' then 0 - d else d);
  }

  lemma OctetOf(d: nat)
    requires d < 16
    ensures ToOctet(d) == d as char && ToOctet(0 - d) == ((256 - d) % 256) as char
  {
  }

  lemma ExtractBehind(x: Octet, c: Octet)
    requires IsHex(c) && (IsSpace(x) || x == '+' || x == '-')
    ensures ExtractHex([x, c]) == Value(if x == '-' then 0 - HexValue(c) else HexValue(c))
  {
    assert [x, c][1..] == [c];
    assert SkipSpaces([c]) == [c];
    assert SkipSpaces([x, c]) == if IsSpace(x) then [c] else [x, c];
  }

  /** A percent sign with no number behind it is dropped and nothing else. */
  lemma DecodeBadPercent(rest: Octets)
    requires rest == [] || !(IsHex(rest[0]) || IsSpace(rest[0]) || rest[0] == '+' || rest[0] == '-')
    ensures Decode(['%'] + rest) == Decode(rest)
  {
    var s: Octets := ['%'] + rest;
    assert s[1..] == rest;
  }

  // ---- Queries ----

  type Form = map<Octets, Octets>

  /** One pair of a query; without an equals sign the whole text is key and value. */
  function PairOf(pair: Octets): (Octets, Octets) {
    var eq := IndexOf(pair, '=');
    (Decode(if eq == -1 then pair else pair[..eq]), Decode(pair[eq + 1..]))
  }

  function FormOf(pairs: seq<Octets>): Form {
    if pairs == [] then map[]
    else
      var (k, v) := PairOf(pairs[|pairs| - 1]);
      FormOf(pairs[..|pairs| - 1])[k := v]
  }

  function ParseQuery(query: Octets): Form {
    FormOf(Pieces<Octet>(query, '&'))
  }

  /** The map the pairs stand for: a later pair with the same key wins. */
  function Meaning(kvs: seq<(Octets, Octets)>): Form {
    if kvs == [] then map[] else Meaning(kvs[..|kvs| - 1])[kvs[|kvs| - 1].0 := kvs[|kvs| - 1].1]
  }

  function EncodePair(kv: (Octets, Octets)): Octets {
    UrlEncode(kv.0) + ['='] + UrlEncode(kv.1)
  }

  function EncodePairs(kvs: seq<(Octets, Octets)>): (r: seq<Octets>)
    ensures |r| == |kvs|
    ensures forall i :: 0 <= i < |kvs| ==> r[i] == EncodePair(kvs[i])
  {
    seq(|kvs|, i requires 0 <= i < |kvs| => EncodePair(kvs[i]))
  }

  lemma PairRoundTrip(kv: (Octets, Octets))
    ensures PairOf(EncodePair(kv)) == kv
    ensures '&' !in EncodePair(kv) && EncodePair(kv) != []
  {
    var k, v := UrlEncode(kv.0), UrlEncode(kv.1);
    EncodeShape(kv.0);
    EncodeShape(kv.1);
    EncodedAvoids(k, '=');
    EncodedAvoids(k, '&');
    EncodedAvoids(v, '&');
    var pair := EncodePair(kv);
    assert pair[..|k|] == k && pair[|k|] == '=' && pair[|k| + 1..] == v;
    IndexIs(pair, '=', |k|);
    DecodeEncode(kv.0);
    DecodeEncode(kv.1);
  }

  lemma {:induction false} FormRoundTrip(kvs: seq<(Octets, Octets)>)
    ensures FormOf(EncodePairs(kvs)) == Meaning(kvs)
  {
    if kvs != [] {
      var n := |kvs| - 1;
      FormRoundTrip(kvs[..n]);
      assert EncodePairs(kvs)[..n] == EncodePairs(kvs[..n]);
      PairRoundTrip(kvs[n]);
    }
  }

  /** Parsing encoded pairs joined by ampersands gives the map of the pairs. */
  lemma QueryRoundTrip(kvs: seq<(Octets, Octets)>)
    ensures ParseQuery(Join<Octet>(EncodePairs(kvs), '&')) == Meaning(kvs)
  {
    var ps := EncodePairs(kvs);
    if kvs != [] {
      forall i | 0 <= i < |ps|
        ensures '&' !in ps[i] && ps[i] != []
      {
        PairRoundTrip(kvs[i]);
      }
      PiecesOfJoin<Octet>(ps, '&');
    }
    FormRoundTrip(kvs);
  }

  /** A pair without an equals sign stands for its text, as key and as value. */
  lemma BarePair(text: Octets)
    requires '&' !in text && '=' !in text && text != []
    ensures ParseQuery(text) == map[Decode(text) := Decode(text)]
  {
    PiecesOfOne<Octet>(text, '&');
    IndexNone(text, '=');
    var pairs: seq<Octets> := [text];
    assert pairs[..0] == [] && text[0..] == text;
    assert FormOf(pairs) == FormOf([])[Decode(text) := Decode(text)];
  }

  // ---- The loops ----

  ghost predicate Encoding(whole: Octets, encoded: Octets, rest: Octets) {
    whole == encoded + UrlEncode(rest)
  }

  lemma EncodingStep(whole: Octets, encoded: Octets, value: Octets, i: nat)
    requires i < |value| && Encoding(whole, encoded, value[i..])
    ensures Encoding(whole, encoded + EncodeChar(value[i]), value[i + 1..])
  {
    var one, more := EncodeChar(value[i]), UrlEncode(value[i + 1..]);
    assert value[i..][1..] == value[i + 1..];
    Regroup(encoded, one, more);
  }

  method EncodeOneTurn(ch: Octet) returns (piece: Octets)
    ensures piece == EncodeChar(ch)
  {
    if Unreserved(ch) {
      piece := [ch];
    } else {
      piece := ['%', HexChar(ch as int / 16), HexChar(ch as int % 16)];
    }
  }

  method UrlEncodeLoop(value: Octets) returns (encoded: Octets)
    ensures encoded == UrlEncode(value)
  {
    encoded := [];
    ghost var whole := UrlEncode(value);
    assert value[0..] == value;
    for i := 0 to |value|
      invariant Encoding(whole, encoded, value[i..])
    {
      EncodingStep(whole, encoded, value, i);
      var piece := EncodeOneTurn(value[i]);
      encoded := encoded + piece;
    }
  }

  /** What one turn of the decoding loop at position i puts out, and how far it
      moves */
  function Turn(s: Octets, i: nat): (Octets, nat)
    requires i < |s|
  {
    if s[i] == '%' then
      match ExtractHex(s[i + 1..Least(i + 3, |s|)])
      case Value(v) => ([ToOctet(v)], 3)
      case Fails => ([], 1)
    else ([if s[i] == '+' then ' ' else s[i]], 1)
  }

  lemma DecodeTurn(s: Octets, i: nat)
    requires i < |s|
    ensures Decode(s[i..]) == Turn(s, i).0 + Decode(s[Least(i + Turn(s, i).1, |s|)..])
  {
    var tail := s[i..];
    assert tail[1..] == s[i + 1..];
    assert tail[1..Least(3, |tail|)] == s[i + 1..Least(i + 3, |s|)];
    assert tail[Least(3, |tail|)..] == s[Least(i + 3, |s|)..];
  }

  /** What the decoding loop keeps: the text so far and the decoded rest make the
      whole. */
  ghost predicate Decoding(s: Octets, i: nat, result: Octets) {
    Decode(s) == result + Decode(s[Least(i, |s|)..])
  }

  lemma DecodingStep(s: Octets, i: nat, result: Octets)
    requires i < |s| && Decoding(s, i, result)
    ensures Decoding(s, i + Turn(s, i).1, result + Turn(s, i).0)
  {
    DecodeTurn(s, i);
    var (piece, step) := Turn(s, i);
    var rest := Decode(s[Least(i + step, |s|)..]);
    assert result + (piece + rest) == result + piece + rest;
  }

  method DecodeOneTurn(s: Octets, i: nat) returns (piece: Octets, step: nat)
    requires i < |s|
    ensures (piece, step) == Turn(s, i)
  {
    if s[i] == '%' {
      var val := ExtractHex(s[i + 1..Least(i + 3, |s|)]);
      if val.Value? {
        return [ToOctet(val.value)], 3;
      }
      return [], 1;
    } else if s[i] == '+' {
      return [' '], 1;
    }
    return [s[i]], 1;
  }

  method DecodeURIComponent(s: Octets) returns (result: Octets)
    ensures result == Decode(s)
  {
    result := [];
    var i := 0;
    assert s[0..] == s;
    while i < |s|
      invariant 0 <= i && Decoding(s, i, result)
    {
      DecodingStep(s, i, result);
      var piece, step := DecodeOneTurn(s, i);
      result := result + piece;
      i := i + step;
    }
    assert Decode(s[|s|..]) == [];
  }

  method ParsePair(pair: Octets) returns (key: Octets, value: Octets)
    ensures (key, value) == PairOf(pair)
  {
    var eq := IndexOf(pair, '=');
    key := DecodeURIComponent(if eq == -1 then pair else pair[..eq]);
    value := DecodeURIComponent(pair[eq + 1..]);
  }

  method ParseQueryLoop(query: Octets) returns (data: Form)
    ensures data == ParseQuery(query)
  {
    data := map[];
    var pairs: seq<Octets> := Pieces<Octet>(query, '&');
    for i := 0 to |pairs|
      invariant data == FormOf(pairs[..i])
    {
      var key, value := ParsePair(pairs[i]);
      data := data[key := value];
      assert pairs[..i + 1][..i] == pairs[..i];
    }
    assert pairs[..|pairs|] == pairs;
  }
}

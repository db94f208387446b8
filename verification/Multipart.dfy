/** Form uploads (frontend/loginHelper.cc): splitting a body at its delimiter and
    taking the uploaded file and its name out of the parts (section 5.1.1 of
    RFC 2046). */
module Multipart {
  import opened Text

  const BLANK: string := "\r\n\r\n"
  const QUOTE: char := '"'

  // ---- Splitting ----

  /** The parts between occurrences of d, scanning from the left. A match at the very
      end is followed by no part. */
  function Split(s: string, d: string): seq<string>
    requires d != ""
    decreases |s|
  {
    if s == "" then []
    else
      var p := Find(s, d, 0);
      if p == -1 then [s] else [s[..p]] + Split(s[p + |d|..], d)
  }

  lemma SplitMatch(tail: string, d: string, p: nat)
    requires d != "" && tail != "" && Find(tail, d, 0) == p
    ensures Split(tail, d) == [tail[..p]] + Split(tail[p + |d|..], d)
  {
    var parts, more := Split(tail, d), Split(tail[p + |d|..], d);
    assert parts == [tail[..p]] + more;
  }

  /** The parts so far and the split of what the iterator still has before it */
  ghost predicate Splitting(whole: seq<string>, parts: seq<string>, rest: string, d: string)
    requires d != ""
  {
    whole == parts + Split(rest, d)
  }

  lemma SplittingMatch(whole: seq<string>, parts: seq<string>, rest: string, d: string, p: nat)
    requires d != "" && rest != "" && Find(rest, d, 0) == p && Splitting(whole, parts, rest, d)
    ensures Splitting(whole, parts + [rest[..p]], rest[p + |d|..], d)
  {
    var part, more := rest[..p], Split(rest[p + |d|..], d);
    SplitMatch(rest, d, p);
    assert parts + ([part] + more) == parts + [part] + more;
  }

  method SplitLoop(s: string, d: string) returns (parts: seq<string>)
    requires d != ""
    ensures parts == Split(s, d)
  {
    ghost var whole := Split(s, d);
    parts := [];
    var rest := s;
    while rest != ""
      invariant Splitting(whole, parts, rest, d)
      decreases |rest|
    {
      var pos := Find(rest, d, 0);
      if pos != -1 {
        SplittingMatch(whole, parts, rest, d, pos);
        parts := parts + [rest[..pos]];
        rest := rest[pos + |d|..];
      } else {
        parts := parts + [rest];
        return;
      }
    }
  }

  lemma AtInTail(s: string, d: string, it: nat, j: nat)
    requires it <= |s|
    ensures At(s[it..], d, j) == At(s, d, it + j)
  {
    if it + j + |d| <= |s| {
      assert s[it..][j..j + |d|] == s[it + j..it + j + |d|];
    }
  }

  lemma FindInTail(s: string, d: string, it: nat)
    requires it <= |s|
    ensures var r := Find(s[it..], d, 0);
            Find(s, d, it) == if r == -1 then -1 else it + r
  {
    var tail, pos, r := s[it..], Find(s, d, it), Find(s[it..], d, 0);
    if pos != -1 {
      AtInTail(s, d, it, pos - it);
    }
    if r != -1 {
      AtInTail(s, d, it, r);
    }
  }

  /** No part holds the delimiter. */
  lemma {:induction false} PartsAreFree(s: string, d: string)
    requires d != ""
    ensures forall part :: part in Split(s, d) ==> Find(part, d, 0) == -1
    decreases |s|
  {
    if s != "" {
      var p := Find(s, d, 0);
      if p != -1 {
        PartsAreFree(s[p + |d|..], d);
        PrefixFree(s, d, p);
      }
    }
  }

  lemma PrefixFree(s: string, d: string, p: nat)
    requires d != "" && Find(s, d, 0) == p
    ensures Find(s[..p], d, 0) == -1
  {
    var r := Find(s[..p], d, 0);
    if r != -1 {
      assert s[..p][r..r + |d|] == s[r..r + |d|];
      assert At(s, d, r);
    }
  }

  function JoinWith(parts: seq<string>, d: string): string
    decreases |parts|
  {
    if parts == [] then "" else if |parts| == 1 then parts[0] else parts[0] + d + JoinWith(parts[1..], d)
  }

  /** The scan stops right after a match. */
  predicate EndsAtMatch(s: string, d: string)
    requires d != ""
    decreases |s|
  {
    var p := Find(s, d, 0);
    p != -1 && (p + |d| == |s| || EndsAtMatch(s[p + |d|..], d))
  }

  /** Joining the parts restores the input, short of one delimiter when the scan
      stops right after a match. */
  lemma {:induction false} Rejoin(s: string, d: string)
    requires d != ""
    ensures s == JoinWith(Split(s, d), d) + if EndsAtMatch(s, d) then d else ""
    decreases |s|
  {
    if s != "" {
      var p := Find(s, d, 0);
      if p != -1 {
        var rest := s[p + |d|..];
        assert s[p..p + |d|] == d;
        assert s == s[..p] + d + rest;
        Rejoin(rest, d);
        var more := Split(rest, d);
        assert ([s[..p]] + more)[1..] == more;
      }
    }
  }

  /** A prefix up to the first delimiter splits off. */
  lemma SplitCons(u: string, d: string, rest: string)
    requires d != "" && Find(u + d + rest, d, 0) == |u|
    ensures Split(u + d + rest, d) == [u] + Split(rest, d)
  {
    var s := u + d + rest;
    assert s[..|u|] == u && s[|u| + |d|..] == rest;
  }

  // ---- Delimiters that are lines ----

  /** The newline is the last character of d and occurs nowhere else in it. */
  predicate IsLine(d: string) {
    |d| >= 1 && d[|d| - 1] == NEWLINE && NEWLINE !in d[..|d| - 1]
  }

  lemma NotAt(s: string, d: string, k: nat, i: nat)
    requires i < |d| && k + i < |s| && s[k + i] != d[i]
    ensures !At(s, d, k)
  {
    if k + |d| <= |s| {
      assert s[k..k + |d|][i] != d[i];
    }
  }

  lemma NotAcross(u: string, d: string, rest: string, k: nat)
    requires IsLine(d) && k < |u| && !At(u, d, k)
    ensures !At(u + d + rest, d, k)
  {
    var s, n := u + d + rest, |d| - 1;
    if k + |d| <= |u| {
      assert s[k..k + |d|] == u[k..k + |d|];
    } else {
      assert s[k + n] == d[..n][k + n - |u|];
      NotAt(s, d, k, n);
    }
  }

  /** A line that does not occur in u first occurs right after it. */
  lemma FirstAfter(u: string, d: string, rest: string)
    requires IsLine(d) && Find(u, d, 0) == -1
    ensures Find(u + d + rest, d, 0) == |u|
  {
    var s := u + d + rest;
    assert s[|u|..|u| + |d|] == d;
    forall k: nat {:trigger At(s, d, k)} | k < |u|
      ensures !At(s, d, k)
    {
      NotAcross(u, d, rest, k);
    }
    FindIs(s, d, 0, |u|);
  }

  /** A first occurrence inside u stays the first when text is appended. */
  lemma FirstWithin(u: string, v: string, d: string)
    requires d != "" && Find(u, d, 0) != -1
    ensures Find(u + v, d, 0) == Find(u, d, 0)
  {
    var p := Find(u, d, 0);
    var s := u + v;
    assert s[p..p + |d|] == u[p..p + |d|];
    forall k: nat {:trigger At(s, d, k)} | k < p
      ensures !At(s, d, k)
    {
      assert s[k..k + |d|] == u[k..k + |d|];
      assert !At(u, d, k);
    }
    FindIs(s, d, 0, p);
  }

  /** Headers and the blank line before v do not shift where d first occurs in v,
      when d starts with a dash. */
  lemma BehindHeaders(h: string, v: string, d: string)
    requires IsLine(d) && d[0] == '-' && Find(h + CRLF, d, 0) == -1
    ensures var p := Find(v, d, 0);
            Find(h + BLANK + v, d, 0) == if p == -1 then -1 else |h| + 4 + p
  {
    var s := h + BLANK + v;
    var n := |h| + 4;
    forall k: nat {:trigger At(s, d, k)} | k < n
      ensures !At(s, d, k)
    {
      NotInHeaders(h, v, d, k);
    }
    assert s[n..] == v;
    FindInTail(s, d, n);
    FindSkips(s, d, n);
  }

  lemma NotInHeaders(h: string, v: string, d: string, k: nat)
    requires IsLine(d) && d[0] == '-' && Find(h + CRLF, d, 0) == -1 && k < |h| + 4
    ensures !At(h + BLANK + v, d, k)
  {
    var s, n := h + BLANK + v, |h|;
    assert s[n] == '\r' && s[n + 1] == NEWLINE && s[n + 2] == '\r' && s[n + 3] == NEWLINE;
    if k >= n {
      NotAt(s, d, k, 0);
    } else if k + |d| <= n + 2 {
      assert s[k..k + |d|] == (h + CRLF)[k..k + |d|];
      assert !At(h + CRLF, d, k);
    } else {
      assert d[..|d| - 1][n + 1 - k] != NEWLINE;
      NotAt(s, d, k, n + 1 - k);
    }
  }

  lemma FindSkips(s: string, d: string, n: nat)
    requires n <= |s|
    requires forall k: nat {:trigger At(s, d, k)} :: k < n ==> !At(s, d, k)
    ensures Find(s, d, 0) == Find(s, d, n)
  {
    var r := Find(s, d, n);
    if r != -1 {
      FindIs(s, d, 0, r);
    }
  }

  // ---- The upload in a form ----

  datatype Upload = Upload(content: string, filename: string) | Fails
  datatype Boundary = Boundary(text: string) | NoBoundary

  const BOUNDARY: string := "boundary="
  const FILENAME: string := "filename="

  predicate Has(s: string, word: string) {
    Find(s, word, 0) != -1
  }

  /** Everything after boundary=, less a first quote and the last character if there
      is one. An empty value has no front, and a lone quote has nothing to erase. */
  function ExtractBoundary(contentType: string): Boundary {
    var pos := Find(contentType, BOUNDARY, 0);
    if pos == -1 then Boundary("")
    else
      var b := contentType[pos + 9..];
      if b == "" || b == [QUOTE] then NoBoundary
      else if b[0] == QUOTE then Boundary(b[1..|b| - 1])
      else Boundary(b)
  }

  function Delimiter(b: string): string {
    "--" + b + CRLF
  }

  function Closing(b: string): string {
    "--" + b + "--"
  }

  /** The quoted file name; without filename=" the search result wraps and the text
      is taken from position 9 on. */
  function FileName(headers: string): string
    requires Has(headers, FILENAME)
  {
    var pos := Find(headers, FILENAME + [QUOTE], 0);
    var start := if pos == -1 then 9 else pos + 10;
    var tail := headers[start..];
    tail[..Until(tail, QUOTE)]
  }

  datatype Inspected = Skipped | Broken | Found(content: string, filename: string)

  /** One part: the content is what follows the blank line, less two characters. */
  function Inspect(part: string, closing: string): Inspected {
    if part == "" || part == closing then Skipped
    else
      var e := Find(part, BLANK, 0);
      if e == -1 then Skipped
      else if e + 4 > |part| - 2 then Broken
      else if !Has(part[..e], FILENAME) then Skipped
      else Found(part[e + 4..|part| - 2], FileName(part[..e]))
  }

  function FirstFile(parts: seq<string>, closing: string): Upload
    decreases |parts|
  {
    if parts == [] then Upload("", "")
    else
      match Inspect(parts[0], closing)
      case Skipped => FirstFile(parts[1..], closing)
      case Broken => Fails
      case Found(content, filename) => Upload(content, filename)
  }

  function ParseForm(contentType: string, body: string): Upload {
    match ExtractBoundary(contentType)
    case NoBoundary => Fails
    case Boundary(b) => FirstFile(Split(body, Delimiter(b)), Closing(b))
  }

  method ExtractBoundaryText(contentType: string) returns (r: Boundary)
    ensures r == ExtractBoundary(contentType)
  {
    var pos := Find(contentType, BOUNDARY, 0);
    if pos == -1 {
      return Boundary("");
    }
    var boundary := contentType[pos + 9..];
    if boundary == "" {
      return NoBoundary;
    }
    if boundary[0] == QUOTE {
      boundary := boundary[1..];
      if boundary == "" {
        return NoBoundary;
      }
      boundary := boundary[..|boundary| - 1];
    }
    return Boundary(boundary);
  }

  method FindFileName(headers: string) returns (filename: string)
    requires Has(headers, FILENAME)
    ensures filename == FileName(headers)
  {
    var filenamePos := Find(headers, FILENAME + [QUOTE], 0);
    var start := if filenamePos == -1 then 9 else filenamePos + 10;
    var end := start;
    while end < |headers| && headers[end] != QUOTE
      invariant start <= end <= |headers|
      invariant forall k :: start <= k < end ==> headers[k] != QUOTE
    {
      end := end + 1;
    }
    filename := headers[start..end];
    UntilIs(headers[start..], QUOTE, end - start);
    assert headers[start..][..end - start] == headers[start..end];
  }

  method ParseFormLoop(contentType: string, body: string) returns (r: Upload)
    ensures r == ParseForm(contentType, body)
  {
    var boundary := ExtractBoundaryText(contentType);
    if boundary.NoBoundary? {
      return Fails;
    }
    var endDelimiter := Closing(boundary.text);
    var parts := SplitLoop(body, Delimiter(boundary.text));
    ghost var all := parts;
    while parts != []
      invariant FirstFile(parts, endDelimiter) == FirstFile(all, endDelimiter)
      decreases |parts|
    {
      var part := parts[0];
      parts := parts[1..];
      if part == "" || part == endDelimiter {
        continue;
      }
      var headerEndPos := Find(part, BLANK, 0);
      if headerEndPos == -1 {
        continue;
      }
      var headers := part[..headerEndPos];
      if headerEndPos + 4 > |part| - 2 {
        return Fails;
      }
      var content := part[headerEndPos + 4..|part| - 2];
      if Has(headers, FILENAME) {
        var filename := FindFileName(headers);
        return Upload(content, filename);
      }
    }
    return Upload("", "");
  }

  // ---- What is recovered ----

  /** Earlier parts, each followed by the delimiter, and then tail */
  function Body(earlier: seq<string>, d: string, tail: string): string
    decreases |earlier|
  {
    if earlier == [] then tail else earlier[0] + d + Body(earlier[1..], d, tail)
  }

  predicate Passed(part: string, b: string) {
    !Has(part, Delimiter(b)) && Inspect(part, Closing(b)).Skipped?
  }

  lemma DelimiterIsLine(b: string)
    requires NEWLINE !in b
    ensures IsLine(Delimiter(b)) && Delimiter(b)[0] == '-' && NEWLINE !in Closing(b)
  {
    var d := Delimiter(b);
    assert d[..|d| - 1] == "--" + b + ['\r'];
  }

  /** Parts without a file do not change what is found after them. */
  lemma {:induction false} SkipEarlier(earlier: seq<string>, b: string, tail: string)
    requires NEWLINE !in b && forall i :: 0 <= i < |earlier| ==> Passed(earlier[i], b)
    ensures var d := Delimiter(b);
            FirstFile(Split(Body(earlier, d, tail), d), Closing(b)) == FirstFile(Split(tail, d), Closing(b))
    decreases |earlier|
  {
    if earlier != [] {
      var d, rest := Delimiter(b), Body(earlier[1..], Delimiter(b), tail);
      DelimiterIsLine(b);
      FirstAfter(earlier[0], d, rest);
      SplitCons(earlier[0], d, rest);
      assert ([earlier[0]] + Split(rest, d))[1..] == Split(rest, d);
      SkipEarlier(earlier[1..], b, tail);
    }
  }

  /** The blank line after these headers is the first one. */
  predicate HeaderBlock(h: string) {
    Find(h + BLANK, BLANK, 0) == |h|
  }

  /** What inspecting a part with headers gives */
  lemma InspectPart(h: string, v: string, closing: string)
    requires HeaderBlock(h) && NEWLINE !in closing
    ensures Inspect(h + BLANK + v, closing) ==
            if |v| < 2 then Broken
            else if Has(h, FILENAME) then Found(v[..|v| - 2], FileName(h))
            else Skipped
  {
    var part := h + BLANK + v;
    FirstWithin(h + BLANK, v, BLANK);
    assert part[..|h|] == h && part[|h| + 1] == NEWLINE;
    if |v| >= 2 {
      assert part[|h| + 4..|part| - 2] == v[..|v| - 2];
    }
  }

  lemma FirstOfParts(part: string, more: seq<string>, closing: string)
    requires !Inspect(part, closing).Skipped?
    ensures FirstFile([part] + more, closing)
         == match Inspect(part, closing) case Found(c, f) => Upload(c, f) case _ => Fails
  {
  }

  /** The part with headers h reaches up to the first delimiter in what follows them. */
  lemma SplitAfterHeaders(h: string, v: string, d: string, p: nat) returns (more: seq<string>)
    requires IsLine(d) && d[0] == '-' && !Has(h + CRLF, d) && Find(v, d, 0) == p
    ensures Split(h + BLANK + v, d) == [h + BLANK + v[..p]] + more
  {
    var s, n := h + BLANK + v, |h| + 4 + p;
    BehindHeaders(h, v, d);
    SplitMatch(s, d, n);
    var parts, part := Split(s, d), h + BLANK + v[..p];
    more := Split(s[n + |d|..], d);
    assert s[..n] == part;
    assert parts == [part] + more;
  }

  lemma FilePart(h: string, v: string, d: string, closing: string, p: nat)
    requires HeaderBlock(h) && Has(h, FILENAME) && NEWLINE !in closing
    requires IsLine(d) && d[0] == '-' && !Has(h + CRLF, d) && Find(v, d, 0) == p
    ensures FirstFile(Split(h + BLANK + v, d), closing) == if p < 2 then Fails else Upload(v[..p - 2], FileName(h))
  {
    var more := SplitAfterHeaders(h, v, d, p);
    var u := v[..p];
    InspectPart(h, u, closing);
    FirstOfParts(h + BLANK + u, more, closing);
    if p >= 2 {
      assert u[..p - 2] == v[..p - 2];
    }
  }

  lemma FileThen(h: string, content: string, d: string, closing: string, rest: string)
    requires HeaderBlock(h) && Has(h, FILENAME) && NEWLINE !in closing
    requires IsLine(d) && d[0] == '-' && !Has(h + CRLF, d)
    ensures FirstFile(Split(h + BLANK + (content + CRLF + d + rest), d), closing) == Upload(content, FileName(h))
       <==> !Has(content + CRLF, d)
  {
    var u := content + CRLF;
    var v := u + d + rest;
    if Has(u, d) {
      assert v == u + (d + rest);
      FirstWithin(u, d + rest, d);
      FilePart(h, v, d, closing, Find(u, d, 0));
    } else {
      FirstAfter(u, d, rest);
      FilePart(h, v, d, closing, |u|);
      assert v[..|u| - 2] == content;
    }
  }

  /** A file that is followed by another part is recovered with its name exactly when
      the file and its line end do not hold the delimiter. */
  lemma FileRecovered(b: string, earlier: seq<string>, h: string, content: string, rest: string)
    requires NEWLINE !in b && forall i :: 0 <= i < |earlier| ==> Passed(earlier[i], b)
    requires HeaderBlock(h) && Has(h, FILENAME) && !Has(h + CRLF, Delimiter(b))
    ensures var d := Delimiter(b);
            var body := Body(earlier, d, h + BLANK + (content + CRLF + d + rest));
            FirstFile(Split(body, d), Closing(b)) == Upload(content, FileName(h)) <==> !Has(content + CRLF, d)
  {
    DelimiterIsLine(b);
    SkipEarlier(earlier, b, h + BLANK + (content + CRLF + Delimiter(b) + rest));
    FileThen(h, content, Delimiter(b), Closing(b), rest);
  }

  /** A file that is the last part comes back with the closing line at its end. */
  lemma LastFileKeepsClosing(b: string, earlier: seq<string>, h: string, content: string)
    requires NEWLINE !in b && forall i :: 0 <= i < |earlier| ==> Passed(earlier[i], b)
    requires HeaderBlock(h) && Has(h, FILENAME) && !Has(h + CRLF, Delimiter(b))
    requires !Has(content + CRLF + Closing(b) + CRLF, Delimiter(b))
    ensures var d := Delimiter(b);
            var body := Body(earlier, d, h + BLANK + (content + CRLF + Closing(b) + CRLF));
            FirstFile(Split(body, d), Closing(b)) == Upload(content + CRLF + Closing(b), FileName(h))
  {
    var d, v := Delimiter(b), content + CRLF + Closing(b) + CRLF;
    DelimiterIsLine(b);
    SkipEarlier(earlier, b, h + BLANK + v);
    BehindHeaders(h, v, d);
    InspectPart(h, v, Closing(b));
    assert v[..|v| - 2] == content + CRLF + Closing(b);
  }

  lemma WordWithin(h: string, word: string, c: char)
    requires Has(h, word + [c])
    ensures Has(h, word)
  {
    var at := Find(h, word + [c], 0);
    assert h[at..at + |word| + 1][..|word|] == h[at..at + |word|];
    assert At(h, word, at);
  }

  /** A quoted file name is taken up to its closing quote. */
  lemma FileNameIs(h: string, start: nat, name: string, after: string)
    requires Find(h, FILENAME + [QUOTE], 0) == start - 10 && start >= 10
    requires QUOTE !in name && start <= |h| && h[start..] == name + [QUOTE] + after
    ensures Has(h, FILENAME) && FileName(h) == name
  {
    WordWithin(h, FILENAME, QUOTE);
    var tail := h[start..];
    UntilIs(tail, QUOTE, |name|);
    assert tail[..|name|] == name;
  }

  lemma HeldBy(s: string, word: string, at: nat, k: nat)
    requires At(s, word, at) && k < |word|
    ensures word[k] in s
  {
    assert s[at..at + |word|][k] == s[at + k];
  }

  /** A name without quotes is taken from the tenth character of the headers on. */
  lemma UnquotedName(h: string)
    requires Has(h, "filename=") && QUOTE !in h
    ensures FileName(h) == h[9..]
  {
    var pos := Find(h, FILENAME + [QUOTE], 0);
    if pos != -1 {
      HeldBy(h, FILENAME + [QUOTE], pos, 9);
      assert false;
    }
    UntilIs(h[9..], QUOTE, |h[9..]|);
  }

  /** Without a boundary parameter the delimiter is two dashes and a line end; with one
      that is empty, or a lone quote, and only then, the parsing fails at once. */
  lemma BoundaryMissing(contentType: string, at: int)
    requires Find(contentType, "boundary=", 0) == at
    ensures at == -1 ==> ExtractBoundary(contentType) == Boundary("")
    ensures at != -1 ==>
      (ExtractBoundary(contentType) == NoBoundary <==>
        |contentType| == at + 9 || (|contentType| == at + 10 && contentType[at + 9] == QUOTE))
  {
    if at != -1 && |contentType| == at + 10 {
      assert contentType[at + 9..] == [contentType[at + 9]];
    }
  }

  /** A boundary parameter that ends the header value gives the same boundary with
      quotes as without. */
  lemma BoundaryIs(contentType: string, at: nat, value: string, b: string)
    requires Find(contentType, BOUNDARY, 0) == at && contentType[at + 9..] == value
    requires b != "" && b[0] != QUOTE && (value == b || value == [QUOTE] + b + [QUOTE])
    ensures ExtractBoundary(contentType) == Boundary(b)
  {
    if value != b {
      assert value[1..|value| - 1] == b;
    }
  }

  /** Put together: a boundary parameter at the end of the content type, earlier parts
      without a file, and a quoted file name give back the file and its name exactly
      when the file and its line end do not hold the delimiter. */
  lemma FormRecovered(contentType: string, at: nat, value: string, b: string, earlier: seq<string>,
                      h: string, start: nat, name: string, after: string, content: string, rest: string)
    requires Find(contentType, BOUNDARY, 0) == at && contentType[at + 9..] == value
    requires b != "" && b[0] != QUOTE && (value == b || value == [QUOTE] + b + [QUOTE])
    requires NEWLINE !in b && forall i :: 0 <= i < |earlier| ==> Passed(earlier[i], b)
    requires HeaderBlock(h) && !Has(h + CRLF, Delimiter(b))
    requires Find(h, FILENAME + [QUOTE], 0) == start - 10 && start >= 10
    requires QUOTE !in name && start <= |h| && h[start..] == name + [QUOTE] + after
    ensures
      var d := Delimiter(b);
      var body := Body(earlier, d, h + BLANK + (content + CRLF + d + rest));
      ParseForm(contentType, body) == Upload(content, name) <==> !Has(content + CRLF, d)
  {
    BoundaryIs(contentType, at, value, b);
    FileNameIs(h, start, name, after);
    FileRecovered(b, earlier, h, content, rest);
  }

  /** The closing line of a form does not start with its delimiter. */
  lemma ClosingIsNoDelimiter(u: string, b: string)
    ensures !At(u + (Closing(b) + CRLF), Delimiter(b), |u|)
  {
    var s, d, i := u + (Closing(b) + CRLF), Delimiter(b), |b| + 2;
    assert s[|u| + i] == (Closing(b) + CRLF)[i] == '-';
    assert d[i] == '\r';
    NotAt(s, d, |u|, i);
  }

  /** No file that is the last part is ever recovered. */
  lemma LastFileNeverRecovered(b: string, earlier: seq<string>, h: string, content: string)
    requires NEWLINE !in b && forall i :: 0 <= i < |earlier| ==> Passed(earlier[i], b)
    requires HeaderBlock(h) && Has(h, FILENAME) && !Has(h + CRLF, Delimiter(b))
    ensures
      var d := Delimiter(b);
      var body := Body(earlier, d, h + BLANK + (content + CRLF + (Closing(b) + CRLF)));
      FirstFile(Split(body, d), Closing(b)) != Upload(content, FileName(h))
  {
    var d, u := Delimiter(b), content + CRLF;
    var v := u + (Closing(b) + CRLF);
    DelimiterIsLine(b);
    SkipEarlier(earlier, b, h + BLANK + v);
    if Has(v, d) {
      ClosingIsNoDelimiter(u, b);
      FilePart(h, v, d, Closing(b), Find(v, d, 0));
    } else {
      BehindHeaders(h, v, d);
      InspectPart(h, v, Closing(b));
    }
  }

  // ---- Fields before the file ----

  /** A part of a form with headers and a value */
  datatype Entry = Entry(headers: string, value: string)

  function EntryText(f: Entry): string {
    f.headers + "\r\n\r\n" + (f.value + "\r\n")
  }

  /** A part that does not hold the delimiter and has no blank line, as the empty one
      before the first delimiter, or headers that name no file. */
  ghost predicate NoFile(part: string, b: string) {
    && !Has(part, Delimiter(b))
    && (Has(part, "\r\n\r\n") ==>
         exists f: Entry :: part == EntryText(f) && HeaderBlock(f.headers) && !Has(f.headers, "filename="))
  }

  lemma NoFilePassed(part: string, b: string)
    requires NEWLINE !in b && NoFile(part, b)
    ensures Passed(part, b)
  {
    DelimiterIsLine(b);
    if Has(part, BLANK) {
      var f :| part == EntryText(f) && HeaderBlock(f.headers) && !Has(f.headers, "filename=");
      InspectPart(f.headers, f.value + CRLF, Closing(b));
    }
  }

  /** A form with any such parts before the file gives back the file and its name
      exactly when the file and its line end do not hold the delimiter. */
  lemma UploadBehindFields(contentType: string, at: nat, b: string, earlier: seq<string>, h: string, start: nat,
                           name: string, after: string, content: string, rest: string)
    requires Find(contentType, BOUNDARY, 0) == at && contentType[at + 9..] == b
    requires b != "" && b[0] != QUOTE && NEWLINE !in b && forall i :: 0 <= i < |earlier| ==> NoFile(earlier[i], b)
    requires HeaderBlock(h) && !Has(h + CRLF, Delimiter(b))
    requires Find(h, FILENAME + [QUOTE], 0) == start - 10 && start >= 10
    requires QUOTE !in name && start <= |h| && h[start..] == name + [QUOTE] + after
    ensures
      var d := Delimiter(b);
      var body := Body(earlier, d, h + BLANK + (content + CRLF + d + rest));
      ParseForm(contentType, body) == Upload(content, name) <==> !Has(content + CRLF, d)
  {
    forall i | 0 <= i < |earlier|
      ensures Passed(earlier[i], b)
    {
      NoFilePassed(earlier[i], b);
    }
    FormRecovered(contentType, at, b, b, earlier, h, start, name, after, content, rest);
  }

  /** A form whose first part has less than two characters behind its headers fails,
      whether or not that part is a file. */
  lemma ShortPartFails(contentType: string, at: nat, b: string, h: string, v: string, rest: string)
    requires Find(contentType, BOUNDARY, 0) == at && contentType[at + 9..] == b
    requires b != "" && b[0] != QUOTE && NEWLINE !in b
    requires HeaderBlock(h) && |v| < 2 && !Has(h + CRLF, Delimiter(b))
    requires Find(v + Delimiter(b) + rest, Delimiter(b), 0) == |v|
    ensures ParseForm(contentType, Delimiter(b) + (h + BLANK + (v + Delimiter(b) + rest))).Fails?
  {
    var d := Delimiter(b);
    var tail, u := h + BLANK + (v + d + rest), v + d + rest;
    BoundaryIs(contentType, at, b, b);
    DelimiterIsLine(b);
    FirstAfter("", d, tail);
    SplitCons("", d, tail);
    assert "" + d + tail == d + tail;
    var more := SplitAfterHeaders(h, u, d, |v|);
    assert u[..|v|] == v;
    InspectPart(h, v, Closing(b));
    FirstOfParts(h + BLANK + v, more, Closing(b));
    assert ([""] + Split(tail, d))[1..] == Split(tail, d);
  }
}

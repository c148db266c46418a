/** The multipart/mixed splitter of session creation (RFC 2046, section 5.1.1). */
module Multipart {
  import opened Common

  datatype Part = Part(contentType: Bytes, contentDescription: Bytes, data: Bytes)

  const CRLF: Bytes := "\r\n"
  const BLANK: Bytes := "\r\n\r\n"

  // ---------------------------------------------------------------------------------------------
  // Header lines

  /** split('\n'): the pieces between line feeds, the piece under way beginning at `start`. */
  function Pieces(s: Bytes, start: nat, i: nat): seq<Bytes>
    requires start <= i <= |s|
    decreases |s| - i
  {
    if i == |s| then [s[start..]]
    else if s[i] == '\n' then [s[start..i]] + Pieces(s, i + 1, i + 1)
    else Pieces(s, start, i + 1)
  }

  function LowerChar(c: char): char {
    if 'A' <= c <= 'Z' then c + ' ' else c
  }

  function Lower(s: Bytes): Bytes {
    seq(|s|, i requires 0 <= i < |s| => LowerChar(s[i]))
  }

  /** A header line as the splitter reads it: lower-case name and value; None without a colon. */
  function HeaderOf(piece: Bytes): Option<(Bytes, Bytes)> {
    var line := Trimmed(piece);
    var c := IndexOf(line, ":", 0);
    if c.None? then None else Some((Lower(Trimmed(line[..c.value])), Trimmed(line[c.value + 1..])))
  }

  /** The value of the last of these lines with that name; empty when there is none. */
  function ValueOf(pieces: seq<Bytes>, name: Bytes): Bytes {
    if pieces == [] then ""
    else
      var header := HeaderOf(pieces[|pieces| - 1]);
      if header.Some? && header.value.0 == name then header.value.1 else ValueOf(pieces[..|pieces| - 1], name)
  }

  // ---------------------------------------------------------------------------------------------
  // The splitter

  /** mid: a negative length takes all that is left. */
  function Mid(s: Bytes, pos: nat, length: int): Bytes
    requires pos <= |s|
  {
    if length < 0 || pos + length > |s| then s[pos..] else s[pos..pos + length]
  }

  /** Behind a delimiter, past its line break. */
  function PastBreak(body: Bytes, pos: nat): (r: nat)
    requires pos < |body|
    ensures pos <= r <= |body|
  {
    if MatchesAt(body, CRLF, pos) then pos + 2 else if body[pos] == '\n' then pos + 1 else pos
  }

  /** The end of the headers that begin at `pos`, and the length of the blank line behind them. */
  function HeadersEnd(body: Bytes, pos: nat): (r: Option<(nat, nat)>)
    ensures r.Some? ==> pos <= r.value.0 && r.value.0 + r.value.1 <= |body| && r.value.1 > 0
  {
    var strict := IndexOf(body, BLANK, pos);
    if strict.Some? then Some((strict.value, 4))
    else
      var lax := IndexOf(body, "\n\n", pos);
      if lax.Some? then Some((lax.value, 2)) else None
  }

  /** The data before a delimiter ends before the line break that belongs to the delimiter. */
  function DataEnd(body: Bytes, next: nat): nat
    requires next <= |body|
  {
    if next >= 2 && MatchesAt(body, CRLF, next - 2) then next - 2
    else if next >= 1 && body[next - 1] == '\n' then next - 1
    else next
  }

  /** The part whose headers begin at `pos`, and the place of the delimiter that ends it. */
  function PartAt(body: Bytes, delimiter: Bytes, pos: nat): (r: Option<(Part, nat)>)
    requires pos <= |body|
    ensures r.Some? ==> pos <= r.value.1 && MatchesAt(body, delimiter, r.value.1)
  {
    var head := HeadersEnd(body, pos);
    if head.None? then None
    else
      var start := head.value.0 + head.value.1;
      var next := IndexOf(body, delimiter, start);
      if next.None? then None
      else
        var pieces := Pieces(body[pos..head.value.0], 0, 0);
        Some((Part(ValueOf(pieces, "content-type"), ValueOf(pieces, "content-description"),
                   Mid(body, start, DataEnd(body, next.value) - start)), next.value))
  }

  /** The parts from behind a delimiter on. */
  function PartsFrom(body: Bytes, delimiter: Bytes, pos: nat): seq<Part>
    requires pos <= |body| && delimiter != ""
    decreases |body| - pos
  {
    if pos == |body| || MatchesAt(body, "--", pos) then []
    else
      var part := PartAt(body, delimiter, PastBreak(body, pos));
      if part.None? then []
      else [part.value.0] + PartsFrom(body, delimiter, part.value.1 + |delimiter|)
  }

  function Parts(body: Bytes, boundary: Bytes): seq<Part> {
    var delimiter := "--" + boundary;
    var first := IndexOf(body, delimiter, 0);
    if first.None? then [] else PartsFrom(body, delimiter, first.value + |delimiter|)
  }

  /** ParseMultipartMixed: it ends on every input. */
  method ParseMultipartMixed(body: Bytes, boundary: Bytes) returns (parts: seq<Part>)
    ensures parts == Parts(body, boundary)
  {
    hide IndexOf, Pieces, ValueOf, Mid, DataEnd, HeadersEnd, PartsFrom, PastBreak;
    var delimiter := "--" + boundary;
    parts := [];
    var first := IndexOf(body, delimiter, 0);
    if first.None? {
      return;
    }
    var pos := first.value + |delimiter|;
    while pos < |body|
      invariant pos <= |body|
      invariant parts + PartsFrom(body, delimiter, pos) == PartsFrom(body, delimiter, first.value + |delimiter|)
    {
      PartsFromIs(body, delimiter, pos);
      if MatchesAt(body, "--", pos) {
        break;
      }
      var start := PastBreak(body, pos);
      var head := HeadersEnd(body, start);
      if head.None? {
        break;
      }
      var bodyStart := head.value.0 + head.value.1;
      var next := IndexOf(body, delimiter, bodyStart);
      if next.None? {
        break;
      }
      var pieces := Pieces(body[start..head.value.0], 0, 0);
      var contentType, contentDescription := ReadHeaders(pieces);
      var part := Part(contentType, contentDescription, Mid(body, bodyStart, DataEnd(body, next.value) - bodyStart));
      parts := parts + [part];
      pos := next.value + |delimiter|;
    }
    PartsEnd(body, delimiter, pos);
  }

  lemma PartsFromIs(body: Bytes, delimiter: Bytes, pos: nat)
    requires pos < |body| && delimiter != ""
    ensures PartsFrom(body, delimiter, pos) ==
            if MatchesAt(body, "--", pos) then []
            else
              var part := PartAt(body, delimiter, PastBreak(body, pos));
              if part.None? then []
              else [part.value.0] + PartsFrom(body, delimiter, part.value.1 + |delimiter|)
    ensures PartAt(body, delimiter, PastBreak(body, pos)).Some? ==>
              PartAt(body, delimiter, PastBreak(body, pos)).value.1 + |delimiter| <= |body|
  {
    hide PartAt, PastBreak;
  }

  lemma PartsEnd(body: Bytes, delimiter: Bytes, pos: nat)
    requires pos <= |body| && delimiter != ""
    ensures pos == |body| || MatchesAt(body, "--", pos) ==> PartsFrom(body, delimiter, pos) == []
  {
    hide PartAt, PastBreak;
  }

  method ReadHeaders(pieces: seq<Bytes>) returns (contentType: Bytes, contentDescription: Bytes)
    ensures contentType == ValueOf(pieces, "content-type")
    ensures contentDescription == ValueOf(pieces, "content-description")
  {
    hide HeaderOf;
    contentType, contentDescription := "", "";
    for i := 0 to |pieces|
      invariant contentType == ValueOf(pieces[..i], "content-type")
      invariant contentDescription == ValueOf(pieces[..i], "content-description")
    {
      assert pieces[..i + 1][..i] == pieces[..i];
      var header := HeaderOf(pieces[i]);
      if header.Some? && header.value.0 == "content-type" {
        contentType := header.value.1;
      } else if header.Some? && header.value.0 == "content-description" {
        contentDescription := header.value.1;
      }
    }
    assert pieces[..|pieces|] == pieces;
  }

  // ---------------------------------------------------------------------------------------------
  // Printed bodies

  predicate NoBreaks(s: Bytes) {
    forall i :: 0 <= i < |s| ==> s[i] != '\r' && s[i] != '\n'
  }

  /** A part to print: header lines of any kind, and data. */
  datatype Source = Source(lines: seq<Bytes>, data: Bytes)

  predicate LinesOk(lines: seq<Bytes>) {
    lines != [] && forall line :: line in lines ==> line != "" && NoBreaks(line)
  }

  /** At least one header line, none empty or broken; data without the delimiter. */
  ghost predicate SourceOk(p: Source, delimiter: Bytes) {
    && LinesOk(p.lines)
    && forall k: nat :: !MatchesAt(p.data, delimiter, k)
  }

  /** The header lines with line breaks between them. */
  function Head(lines: seq<Bytes>): Bytes {
    if lines == [] then ""
    else if |lines| == 1 then lines[0]
    else lines[0] + CRLF + Head(lines[1..])
  }

  /** What stands behind the delimiter of part i: the part and all that follows, up to any epilogue. */
  function Printed(parts: seq<Source>, i: nat, delimiter: Bytes, epilogue: Bytes): Bytes
    requires i <= |parts|
    decreases |parts| - i
  {
    if i == |parts| then "--" + epilogue
    else CRLF + Head(parts[i].lines) + BLANK + parts[i].data + CRLF + delimiter
         + Printed(parts, i + 1, delimiter, epilogue)
  }

  function Body(parts: seq<Source>, boundary: Bytes, epilogue: Bytes): Bytes {
    "--" + boundary + Printed(parts, 0, "--" + boundary, epilogue)
  }

  function PartOf(p: Source): Part {
    Part(ValueOf(p.lines, "content-type"), ValueOf(p.lines, "content-description"), p.data)
  }

  function PartsOf(parts: seq<Source>): seq<Part> {
    seq(|parts|, i requires 0 <= i < |parts| => PartOf(parts[i]))
  }

  /** In the headers, a carriage return is never followed by another two places on. */
  lemma {:induction false} HeadHasNoBlank(lines: seq<Bytes>)
    requires LinesOk(lines)
    ensures var head := Head(lines);
      && head != "" && head[0] != '\r'
      && forall k :: 0 <= k < |head| && head[k] == '\r' ==> k + 2 < |head| && head[k + 2] != '\r'
    decreases |lines|
  {
    var head := Head(lines);
    if |lines| == 1 {
      assert NoBreaks(lines[0]);
    } else {
      HeadHasNoBlank(lines[1..]);
      var line, more := lines[0], Head(lines[1..]);
      assert head == line + CRLF + more && line in lines;
      assert forall j :: 0 <= j < |line| ==> head[j] == line[j] && head[j] != '\r';
      forall k | 0 <= k < |head| && head[k] == '\r'
        ensures k + 2 < |head| && head[k + 2] != '\r'
      {
        if k >= |line| + 2 {
          assert head[k] == more[k - |line| - 2];
        } else {
          assert head[|line| + 1] == '\n' && head[|line| + 2] == more[0];
        }
      }
    }
  }

  lemma BlankReturns(body: Bytes, k: nat)
    ensures MatchesAt(body, BLANK, k) ==> k + 2 < |body| && body[k] == '\r' && body[k + 2] == '\r'
  {
    if MatchesAt(body, BLANK, k) {
      assert body[k] == body[k..k + 4][0] && body[k + 2] == body[k..k + 4][2];
    }
  }

  lemma HeadIsFound(pre: Bytes, lines: seq<Bytes>, post: Bytes)
    requires LinesOk(lines)
    ensures var body := pre + Head(lines) + BLANK + post;
      HeadersEnd(body, |pre|) == Some((|pre| + |Head(lines)|, 4))
  {
    hide IndexOf, Head;
    HeadHasNoBlank(lines);
    var head := Head(lines);
    var body := pre + head + BLANK + post;
    forall k | |pre| <= k < |pre| + |head|
      ensures !MatchesAt(body, BLANK, k)
    {
      assert body[k] == head[k - |pre|];
      BlankReturns(body, k);
      if body[k] == '\r' {
        assert body[k + 2] == head[k + 2 - |pre|];
      }
    }
    assert MatchesAt(body, BLANK, |pre| + |head|);
  }

  lemma DataIsFound(pre: Bytes, data: Bytes, delimiter: Bytes, post: Bytes)
    requires delimiter != "" && NoBreaks(delimiter) && forall k: nat :: !MatchesAt(data, delimiter, k)
    ensures var body := pre + data + CRLF + delimiter + post;
      IndexOf(body, delimiter, |pre|) == Some(|pre| + |data| + 2)
  {
    hide IndexOf, NoBreaks, MatchesAt;
    var body := pre + data + CRLF + delimiter + post;
    forall k | |pre| <= k < |pre| + |data| + 2
      ensures !MatchesAt(body, delimiter, k)
    {
      if MatchesAt(body, delimiter, k) {
        EarlyMatch(pre, data, delimiter, post, k);
        assert false;
      }
    }
    MatchBehind(pre + data + CRLF, delimiter, post);
  }

  lemma MatchBehind(pre: Bytes, needle: Bytes, post: Bytes)
    ensures MatchesAt(pre + needle + post, needle, |pre|)
  {
  }

  /** A match that begins before the line break would lie in the data or hold a break. */
  lemma EarlyMatch(pre: Bytes, data: Bytes, delimiter: Bytes, post: Bytes, k: nat)
    requires delimiter != "" && NoBreaks(delimiter)
    requires |pre| <= k < |pre| + |data| + 2 && MatchesAt(pre + data + CRLF + delimiter + post, delimiter, k)
    ensures MatchesAt(data, delimiter, k - |pre|)
  {
    var body := pre + data + CRLF + delimiter + post;
    var at := |pre| + |data|;
    assert body[at] == '\r' && body[at + 1] == '\n';
    assert forall j :: 0 <= j < |delimiter| ==> delimiter[j] == body[k..k + |delimiter|][j] == body[k + j];
    assert forall j :: k <= j < k + |delimiter| ==> body[j] == delimiter[j - k];
    assert !(k <= at < k + |delimiter|) && !(k <= at + 1 < k + |delimiter|);
    assert data[k - |pre|..k - |pre| + |delimiter|] == body[k..k + |delimiter|];
  }

  /** The pieces of printed headers are the lines, each but the last with its carriage return. */
  lemma {:induction false} PiecesAreLines(pre: Bytes, lines: seq<Bytes>) returns (pieces: seq<Bytes>)
    requires LinesOk(lines)
    ensures pieces == Pieces(pre + Head(lines), |pre|, |pre|) && |pieces| == |lines|
    ensures forall i :: 0 <= i < |pieces| ==>
              pieces[i] == lines[i] + if i == |lines| - 1 then "" else "\r"
    decreases |lines|
  {
    var line := lines[0];
    assert line in lines;
    if |lines| == 1 {
      LastPiece(pre, line, 0);
      pieces := [line];
    } else {
      var more := Head(lines[1..]);
      assert pre + Head(lines) == pre + (line + "\r") + "\n" + more;
      PieceEnds(pre, line + "\r", more, 0);
      var rest := PiecesAreLines(pre + (line + "\r") + "\n", lines[1..]);
      pieces := [line + "\r"] + rest;
    }
  }

  lemma {:induction false} LastPiece(pre: Bytes, line: Bytes, i: nat)
    requires i <= |line| && NoBreaks(line)
    ensures Pieces(pre + line, |pre|, |pre| + i) == [line]
    decreases |line| - i
  {
    if i < |line| {
      assert (pre + line)[|pre| + i] == line[i];
      LastPiece(pre, line, i + 1);
    } else {
      assert (pre + line)[|pre|..] == line;
    }
  }

  lemma {:induction false} PieceEnds(pre: Bytes, piece: Bytes, more: Bytes, i: nat)
    requires i <= |piece| && forall k :: 0 <= k < |piece| ==> piece[k] != '\n'
    ensures Pieces(pre + piece + "\n" + more, |pre|, |pre| + i)
            == [piece] + Pieces(pre + piece + "\n" + more, |pre + piece + "\n"|, |pre + piece + "\n"|)
    decreases |piece| - i
  {
    var s := pre + piece + "\n" + more;
    if i < |piece| {
      assert s[|pre| + i] == piece[i];
      PieceEnds(pre, piece, more, i + 1);
    } else {
      assert s[|pre|..|pre| + i] == piece;
    }
  }

  lemma TrimmedReturn(line: Bytes)
    ensures Trimmed(line + "\r") == Trimmed(line)
  {
    hide *;
    var a, b := TrimSplits(line);
    SpaceReturn(b);
    assert line + "\r" == a + Trimmed(line) + (b + "\r");
    TrimmedMiddle(a, Trimmed(line), b + "\r");
  }

  lemma SpaceReturn(s: Bytes)
    requires AllSpace(s)
    ensures AllSpace(s + "\r")
  {
  }

  lemma {:induction false} ValuesOfLines(pieces: seq<Bytes>, lines: seq<Bytes>, name: Bytes)
    requires |pieces| == |lines| && forall i :: 0 <= i < |pieces| ==> Trimmed(pieces[i]) == Trimmed(lines[i])
    ensures ValueOf(pieces, name) == ValueOf(lines, name)
    decreases |pieces|
  {
    hide Trimmed;
    if pieces != [] {
      ValuesOfLines(pieces[..|pieces| - 1], lines[..|lines| - 1], name);
    }
  }

  lemma HeadersRead(lines: seq<Bytes>, name: Bytes)
    requires LinesOk(lines)
    ensures ValueOf(Pieces(Head(lines), 0, 0), name) == ValueOf(lines, name)
  {
    hide Trimmed, ValueOf;
    var pieces := PiecesAreLines("", lines);
    assert "" + Head(lines) == Head(lines);
    forall i | 0 <= i < |pieces|
      ensures Trimmed(pieces[i]) == Trimmed(lines[i])
    {
      TrimmedReturn(lines[i]);
      assert lines[i] + "" == lines[i];
    }
    ValuesOfLines(pieces, lines, name);
  }

  lemma DataIsCut(pre: Bytes, data: Bytes, post: Bytes)
    ensures var body := pre + data + CRLF + post;
      Mid(body, |pre|, DataEnd(body, |pre| + |data| + 2) - |pre|) == data
  {
    var body := pre + data + CRLF + post;
    assert MatchesAt(body, CRLF, |pre| + |data|);
    assert body[|pre|..|pre| + |data|] == data;
  }

  lemma PartIsFound(pre: Bytes, p: Source, delimiter: Bytes, post: Bytes)
    requires SourceOk(p, delimiter) && delimiter != "" && NoBreaks(delimiter)
    ensures var body := pre + Head(p.lines) + BLANK + p.data + CRLF + delimiter + post;
      PartAt(body, delimiter, |pre|) == Some((PartOf(p), |pre| + |Head(p.lines)| + 4 + |p.data| + 2))
  {
    hide IndexOf, Head, HeadersEnd, ValueOf, Pieces, Mid, DataEnd, NoBreaks, MatchesAt;
    var head := Head(p.lines);
    var body := pre + head + BLANK + p.data + CRLF + delimiter + post;
    assert body == pre + head + BLANK + (p.data + CRLF + delimiter + post);
    HeadIsFound(pre, p.lines, p.data + CRLF + delimiter + post);
    assert body[|pre|..|pre| + |head|] == head;
    DataIsFound(pre + head + BLANK, p.data, delimiter, post);
    assert body == (pre + head + BLANK) + p.data + CRLF + (delimiter + post);
    DataIsCut(pre + head + BLANK, p.data, delimiter + post);
    HeadersRead(p.lines, "content-type");
    HeadersRead(p.lines, "content-description");
  }

  lemma PartIsNext(pre: Bytes, p: Source, delimiter: Bytes, post: Bytes)
    requires SourceOk(p, delimiter) && delimiter != "" && NoBreaks(delimiter)
    ensures var pre' := pre + CRLF + Head(p.lines) + BLANK + p.data + CRLF + delimiter;
      PartsFrom(pre' + post, delimiter, |pre|) == [PartOf(p)] + PartsFrom(pre' + post, delimiter, |pre'|)
  {
    hide PartAt, SourceOk, Head, PartOf, NoBreaks, PartsFrom;
    var body := pre + CRLF + Head(p.lines) + BLANK + p.data + CRLF + delimiter + post;
    assert body[|pre|..|pre| + 2] == CRLF;
    assert body[|pre|..|pre| + 2][0] == '\r';
    PartIsFound(pre + CRLF, p, delimiter, post);
    PartsFromIs(body, delimiter, |pre|);
  }

  /** Splitting a printed body takes every part back: the values of its header lines, and its data as it
      was, even empty, ending in line breaks or holding blank lines. */
  lemma {:induction false} PrintedSplits(pre: Bytes, parts: seq<Source>, i: nat, delimiter: Bytes, epilogue: Bytes)
    requires i <= |parts| && delimiter != "" && NoBreaks(delimiter)
    requires forall p :: p in parts ==> SourceOk(p, delimiter)
    ensures PartsFrom(pre + Printed(parts, i, delimiter, epilogue), delimiter, |pre|) == PartsOf(parts)[i..]
    decreases |parts| - i
  {
    hide PartsFrom, SourceOk, Head, PartOf, NoBreaks;
    var body := pre + Printed(parts, i, delimiter, epilogue);
    if i == |parts| {
      assert MatchesAt(body, "--", |pre|);
      PartsEnd(body, delimiter, |pre|);
    } else {
      var p, post := parts[i], Printed(parts, i + 1, delimiter, epilogue);
      var pre' := pre + CRLF + Head(p.lines) + BLANK + p.data + CRLF + delimiter;
      assert body == pre' + post;
      PartIsNext(pre, p, delimiter, post);
      PrintedSplits(pre', parts, i + 1, delimiter, epilogue);
      assert PartsOf(parts)[i..] == [PartOf(p)] + PartsOf(parts)[i + 1..];
    }
  }

  /** For parts under header lines of any kind. */
  lemma RoundTrip(parts: seq<Source>, boundary: Bytes, epilogue: Bytes)
    requires NoBreaks(boundary) && forall p :: p in parts ==> SourceOk(p, "--" + boundary)
    ensures Parts(Body(parts, boundary, epilogue), boundary) == PartsOf(parts)
  {
    hide Printed, PartsFrom, SourceOk, PartsOf;
    var delimiter := "--" + boundary;
    var body := Body(parts, boundary, epilogue);
    assert body == delimiter + Printed(parts, 0, delimiter, epilogue);
    assert MatchesAt(body, delimiter, 0);
    PrintedSplits(delimiter, parts, 0, delimiter, epilogue);
    assert PartsOf(parts)[0..] == PartsOf(parts);
  }

  /** A printed header line reads as its name in lower case and its value, without white space around it. */
  lemma HeaderReads(name: Bytes, value: Bytes)
    requires name != "" && IsTrim(name) && forall i :: 0 <= i < |name| ==> name[i] != ':'
    ensures HeaderOf(name + ": " + value) == Some((Lower(name), Trimmed(value)))
  {
    hide Trimmed, IndexOf, IsTrim;
    var core := Trimmed(value);
    var behind := LineTrims(name, value);
    var middle := name + ":" + behind + core;
    assert forall k :: 0 <= k < |name| ==> middle[k] == name[k];
    assert middle[|name|] == ':';
    ColonAt(middle, |name|);
    PaddedTrims("", name);
    assert middle[..|name|] == name == "" + name;
    PaddedTrims(behind, core);
    assert middle[|name| + 1..] == behind + core;
  }

  lemma LineTrims(name: Bytes, value: Bytes) returns (behind: Bytes)
    requires name != "" && IsTrim(name)
    ensures AllSpace(behind) && IsTrim(Trimmed(value))
    ensures Trimmed(name + ": " + value) == name + ":" + behind + Trimmed(value)
  {
    hide Trimmed;
    var core := Trimmed(value);
    var a, b := TrimSplits(value);
    behind := if core == "" then "" else " " + a;
    var after := if core == "" then " " + a + b else b;
    var middle := name + ":" + behind + core;
    assert name + ": " + value == "" + middle + after;
    assert middle[0] == name[0];
    assert middle[|middle| - 1] == if core == "" then ':' else core[|core| - 1];
    TrimmedMiddle("", middle, after);
  }

  lemma PaddedTrims(pad: Bytes, s: Bytes)
    requires AllSpace(pad) && IsTrim(s)
    ensures Trimmed(pad + s) == s
  {
    hide Trimmed, IsTrim;
    assert pad + s == pad + s + "";
    TrimmedMiddle(pad, s, "");
  }

  lemma ColonAt(s: Bytes, at: nat)
    requires at < |s| && s[at] == ':' && forall k :: 0 <= k < at ==> s[k] != ':'
    ensures IndexOf(s, ":", 0) == Some(at)
  {
    hide IndexOf;
    assert MatchesAt(s, ":", at);
    forall k | 0 <= k < at
      ensures !MatchesAt(s, ":", k)
    {
      assert s[k] == s[k..k + 1][0];
    }
  }

  /** The session parts: their two headers, under names in any case, come back without white space around
      them, and their data unchanged. */
  lemma TwoHeadersRead(
    typeName: Bytes, contentType: Bytes, descriptionName: Bytes, contentDescription: Bytes, data: Bytes)
    requires Lower(typeName) == "content-type" && Lower(descriptionName) == "content-description"
    requires IsTrim(typeName) && IsTrim(descriptionName)
    ensures PartOf(Source([typeName + ": " + contentType, descriptionName + ": " + contentDescription], data))
            == Part(Trimmed(contentType), Trimmed(contentDescription), data)
  {
    hide HeaderOf, IsTrim, Trimmed;
    var lines := [typeName + ": " + contentType, descriptionName + ": " + contentDescription];
    NameHasNoColon(typeName);
    NameHasNoColon(descriptionName);
    HeaderReads(typeName, contentType);
    HeaderReads(descriptionName, contentDescription);
    var first, none: seq<Bytes> := [lines[0]], [];
    assert lines[..1] == first && first[..0] == none;
    assert |"content-type"| == 12 && |"content-description"| == 19;
    assert ValueOf(first, "content-type") == Trimmed(contentType);
  }

  lemma NameHasNoColon(name: Bytes)
    requires forall i :: 0 <= i < |Lower(name)| ==> Lower(name)[i] != ':'
    ensures forall i :: 0 <= i < |name| ==> name[i] != ':'
  {
    forall i | 0 <= i < |name|
      ensures name[i] != ':'
    {
      assert Lower(name)[i] != ':';
    }
  }

  /** A part printed with its two headers. */
  function SourceOf(p: Part): Source {
    Source(["Content-Type: " + p.contentType, "Content-Description: " + p.contentDescription], p.data)
  }

  function SourcesOf(parts: seq<Part>): seq<Source> {
    seq(|parts|, i requires 0 <= i < |parts| => SourceOf(parts[i]))
  }

  /** Header values without line breaks, data without the delimiter. */
  ghost predicate PartOk(p: Part, delimiter: Bytes) {
    && NoBreaks(p.contentType) && NoBreaks(p.contentDescription)
    && forall k: nat :: !MatchesAt(p.data, delimiter, k)
  }

  /** What the splitter makes of a part's headers. */
  function TrimmedPart(p: Part): Part {
    Part(Trimmed(p.contentType), Trimmed(p.contentDescription), p.data)
  }

  lemma StandardNames()
    ensures Lower("Content-Type") == "content-type" && Lower("Content-Description") == "content-description"
  {
  }

  lemma PartReads(p: Part, delimiter: Bytes)
    requires PartOk(p, delimiter)
    ensures SourceOk(SourceOf(p), delimiter) && PartOf(SourceOf(p)) == TrimmedPart(p)
  {
    hide ValueOf, MatchesAt, Lower, Trimmed;
    var typeName, descriptionName := "Content-Type", "Content-Description";
    StandardNames();
    assert typeName + ": " + p.contentType == "Content-Type: " + p.contentType;
    assert descriptionName + ": " + p.contentDescription == "Content-Description: " + p.contentDescription;
    TwoHeadersRead(typeName, p.contentType, descriptionName, p.contentDescription, p.data);
  }

  /** Parsing a printed list of parts gives that list, with white space at the ends of header values dropped
      and all data as it was. */
  lemma PartsReadTrimmed(parts: seq<Part>, boundary: Bytes, epilogue: Bytes)
    requires NoBreaks(boundary) && forall p :: p in parts ==> PartOk(p, "--" + boundary)
    ensures var read := Parts(Body(SourcesOf(parts), boundary, epilogue), boundary);
      |read| == |parts| && forall i :: 0 <= i < |parts| ==> read[i] == TrimmedPart(parts[i])
  {
    hide Parts, Body, PartOf, SourceOf, SourceOk, PartOk, TrimmedPart;
    forall i | 0 <= i < |parts|
      ensures SourceOk(SourcesOf(parts)[i], "--" + boundary) && PartOf(SourcesOf(parts)[i]) == TrimmedPart(parts[i])
    {
      PartReads(parts[i], "--" + boundary);
    }
    RoundTrip(SourcesOf(parts), boundary, epilogue);
  }

  /** Header values begin and end in something else than white space. */
  predicate HeadersTrim(p: Part) {
    IsTrim(p.contentType) && IsTrim(p.contentDescription)
  }

  /** Parsing a printed list of parts gives back the very list exactly when no header value begins or ends in
      white space. */
  lemma PartsRoundTrip(parts: seq<Part>, boundary: Bytes, epilogue: Bytes)
    requires NoBreaks(boundary) && forall p :: p in parts ==> PartOk(p, "--" + boundary)
    ensures Parts(Body(SourcesOf(parts), boundary, epilogue), boundary) == parts <==>
            forall i :: 0 <= i < |parts| ==> HeadersTrim(parts[i])
  {
    hide Parts, Body, SourcesOf, PartOk, Trimmed, IsTrim;
    PartsReadTrimmed(parts, boundary, epilogue);
    forall i | 0 <= i < |parts|
      ensures TrimmedPart(parts[i]) == parts[i] <==> HeadersTrim(parts[i])
    {
      TrimmedIsSelf(parts[i].contentType);
      TrimmedIsSelf(parts[i].contentDescription);
    }
  }

  /** A blank before a description is lost. */
  lemma OuterBlankIsLost()
    ensures var part := Part("text/plain", " note", "");
      Parts(Body(SourcesOf([part]), "b", ""), "b") == [part.(contentDescription := "note")]
  {
    hide Parts, Body, SourcesOf, Trimmed, MatchesAt;
    var part := Part("text/plain", " note", "");
    NoMatchInNothing("--" + "b");
    assert PartOk(part, "--" + "b");
    PartsReadTrimmed([part], "b", "");
    TrimmedMiddle("", "text/plain", "");
    assert "" + "text/plain" + "" == "text/plain";
    TrimmedMiddle(" ", "note", "");
    assert " " + "note" + "" == " note";
  }

  lemma NoMatchInNothing(needle: Bytes)
    requires needle != ""
    ensures forall k: nat :: !MatchesAt("", needle, k)
  {
  }
}

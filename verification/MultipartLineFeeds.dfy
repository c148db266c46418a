/** The multipart splitter on bodies whose lines end in bare line feeds, which it accepts as well. */
module MultipartLineFeeds {
  import opened Common
  import opened Multipart

  const LF: Bytes := "\n"
  const LF_BLANK: Bytes := "\n\n"

  /** The header lines with line feeds between them. */
  function Head(lines: seq<Bytes>): Bytes {
    if lines == [] then ""
    else if |lines| == 1 then lines[0]
    else lines[0] + LF + Head(lines[1..])
  }

  /** Data that does not end in a carriage return, which the line feed behind it would make a line break. */
  ghost predicate FeedOk(p: Source, delimiter: Bytes) {
    SourceOk(p, delimiter) && (p.data == "" || p.data[|p.data| - 1] != '\r')
  }

  /** What stands behind the delimiter of part i. */
  function Printed(parts: seq<Source>, i: nat, delimiter: Bytes, epilogue: Bytes): Bytes
    requires i <= |parts|
    decreases |parts| - i
  {
    if i == |parts| then "--" + epilogue
    else LF + Head(parts[i].lines) + LF_BLANK + parts[i].data + LF + delimiter
         + Printed(parts, i + 1, delimiter, epilogue)
  }

  function Body(parts: seq<Source>, boundary: Bytes, epilogue: Bytes): Bytes {
    "--" + boundary + Printed(parts, 0, "--" + boundary, epilogue)
  }

  /** In the headers no line feed is followed by another, and none ends them. */
  lemma {:induction false} HeadHasNoBlank(lines: seq<Bytes>)
    requires LinesOk(lines)
    ensures var head := Head(lines);
      && head != "" && head[0] != '\n'
      && forall k :: 0 <= k < |head| && head[k] == '\n' ==> k + 1 < |head| && head[k + 1] != '\n'
    decreases |lines|
  {
    var head := Head(lines);
    if |lines| == 1 {
      assert NoBreaks(lines[0]);
    } else {
      HeadHasNoBlank(lines[1..]);
      var line, more := lines[0], Head(lines[1..]);
      assert head == line + LF + more && line in lines;
      assert forall j :: 0 <= j < |line| ==> head[j] == line[j] && head[j] != '\n';
      forall k | 0 <= k < |head| && head[k] == '\n'
        ensures k + 1 < |head| && head[k + 1] != '\n'
      {
        if k == |line| {
          assert head[k + 1] == more[0];
        } else {
          assert head[k] == more[k - |line| - 1];
        }
      }
    }
  }

  lemma FeedsAt(body: Bytes, k: nat)
    ensures MatchesAt(body, LF_BLANK, k) ==> k + 1 < |body| && body[k] == '\n' && body[k + 1] == '\n'
  {
    if MatchesAt(body, LF_BLANK, k) {
      assert body[k] == body[k..k + 2][0] && body[k + 1] == body[k..k + 2][1];
    }
  }

  lemma HeadIsFound(pre: Bytes, lines: seq<Bytes>, post: Bytes)
    requires LinesOk(lines)
    requires forall k: nat :: !MatchesAt(pre + Head(lines) + LF_BLANK + post, BLANK, k)
    ensures HeadersEnd(pre + Head(lines) + LF_BLANK + post, |pre|) == Some((|pre| + |Head(lines)|, 2))
  {
    hide IndexOf, Head;
    HeadHasNoBlank(lines);
    var head := Head(lines);
    var body := pre + head + LF_BLANK + post;
    forall k | |pre| <= k < |pre| + |head|
      ensures !MatchesAt(body, LF_BLANK, k)
    {
      assert body[k] == head[k - |pre|];
      FeedsAt(body, k);
      if body[k] == '\n' {
        assert body[k + 1] == head[k + 1 - |pre|];
      }
    }
    assert MatchesAt(body, LF_BLANK, |pre| + |head|);
  }

  lemma EarlyMatch(pre: Bytes, data: Bytes, delimiter: Bytes, post: Bytes, k: nat)
    requires delimiter != "" && NoBreaks(delimiter)
    requires |pre| <= k < |pre| + |data| + 1 && MatchesAt(pre + data + LF + delimiter + post, delimiter, k)
    ensures MatchesAt(data, delimiter, k - |pre|)
  {
    var body := pre + data + LF + delimiter + post;
    var at := |pre| + |data|;
    assert body[at] == '\n';
    assert forall j :: 0 <= j < |delimiter| ==> delimiter[j] == body[k..k + |delimiter|][j] == body[k + j];
    assert forall j :: k <= j < k + |delimiter| ==> body[j] == delimiter[j - k];
    assert !(k <= at < k + |delimiter|);
    assert data[k - |pre|..k - |pre| + |delimiter|] == body[k..k + |delimiter|];
  }

  lemma DataIsFound(pre: Bytes, data: Bytes, delimiter: Bytes, post: Bytes)
    requires delimiter != "" && NoBreaks(delimiter) && forall k: nat :: !MatchesAt(data, delimiter, k)
    ensures IndexOf(pre + data + LF + delimiter + post, delimiter, |pre|) == Some(|pre| + |data| + 1)
  {
    hide IndexOf, NoBreaks, MatchesAt;
    var body := pre + data + LF + delimiter + post;
    forall k | |pre| <= k < |pre| + |data| + 1
      ensures !MatchesAt(body, delimiter, k)
    {
      if MatchesAt(body, delimiter, k) {
        EarlyMatch(pre, data, delimiter, post, k);
        assert false;
      }
    }
    MatchBehind(pre + data + LF, delimiter, post);
  }

  /** Only the line feed before the delimiter is cut. */
  lemma DataIsCut(pre: Bytes, data: Bytes, post: Bytes)
    requires data != "" ==> data[|data| - 1] != '\r'
    requires data == "" ==> pre != "" && pre[|pre| - 1] == '\n'
    ensures var body := pre + data + LF + post;
      Mid(body, |pre|, DataEnd(body, |pre| + |data| + 1) - |pre|) == data
  {
    var body := pre + data + LF + post;
    var next := |pre| + |data| + 1;
    if next >= 2 {
      assert body[next - 2] == if data == "" then pre[|pre| - 1] else data[|data| - 1];
      assert body[next - 2..next][0] == body[next - 2];
    }
    assert body[next - 1] == '\n';
    assert body[|pre|..|pre| + |data|] == data;
  }

  /** The pieces of the headers are the lines. */
  lemma {:induction false} PiecesAreLines(pre: Bytes, lines: seq<Bytes>)
    requires LinesOk(lines)
    ensures Pieces(pre + Head(lines), |pre|, |pre|) == lines
    decreases |lines|
  {
    hide Pieces;
    var line := lines[0];
    assert line in lines;
    if |lines| == 1 {
      LastPiece(pre, line, 0);
      assert lines == [line];
    } else {
      var more := Head(lines[1..]);
      assert pre + Head(lines) == pre + line + "\n" + more;
      PieceEnds(pre, line, more, 0);
      PiecesAreLines(pre + line + "\n", lines[1..]);
      assert lines == [line] + lines[1..];
    }
  }

  lemma PartIsFound(pre: Bytes, p: Source, delimiter: Bytes, post: Bytes)
    requires FeedOk(p, delimiter) && delimiter != "" && NoBreaks(delimiter)
    requires forall k: nat :: !MatchesAt(pre + Head(p.lines) + LF_BLANK + (p.data + LF + delimiter + post), BLANK, k)
    ensures PartAt(pre + Head(p.lines) + LF_BLANK + (p.data + LF + delimiter + post), delimiter, |pre|)
         == Some((PartOf(p), |pre| + |Head(p.lines)| + 2 + |p.data| + 1))
  {
    hide IndexOf, Head, HeadersEnd, ValueOf, Pieces, Mid, DataEnd, NoBreaks, MatchesAt;
    var head := Head(p.lines);
    var body := pre + head + LF_BLANK + (p.data + LF + delimiter + post);
    HeadIsFound(pre, p.lines, p.data + LF + delimiter + post);
    assert body[|pre|..|pre| + |head|] == head;
    DataIsFound(pre + head + LF_BLANK, p.data, delimiter, post);
    assert body == (pre + head + LF_BLANK) + p.data + LF + delimiter + post;
    assert body == (pre + head + LF_BLANK) + p.data + LF + (delimiter + post);
    DataIsCut(pre + head + LF_BLANK, p.data, delimiter + post);
    assert "" + head == head;
    PiecesAreLines("", p.lines);
  }

  lemma PartIsNext(pre: Bytes, p: Source, delimiter: Bytes, post: Bytes)
    requires FeedOk(p, delimiter) && delimiter != "" && NoBreaks(delimiter)
    requires var pre' := pre + LF + Head(p.lines) + LF_BLANK + p.data + LF + delimiter;
      forall k: nat :: !MatchesAt(pre' + post, BLANK, k)
    ensures var pre' := pre + LF + Head(p.lines) + LF_BLANK + p.data + LF + delimiter;
      PartsFrom(pre' + post, delimiter, |pre|) == [PartOf(p)] + PartsFrom(pre' + post, delimiter, |pre'|)
  {
    hide PartAt, FeedOk, Head, PartOf, NoBreaks, PartsFrom;
    var pre' := pre + LF + Head(p.lines) + LF_BLANK + p.data + LF + delimiter;
    var body := pre' + post;
    assert body == (pre + LF) + Head(p.lines) + LF_BLANK + (p.data + LF + delimiter + post);
    assert body[|pre|] == '\n';
    NoReturnAt(body, |pre|);
    NoDashesAt(body, |pre|);
    PartIsFound(pre + LF, p, delimiter, post);
    PartsFromIs(body, delimiter, |pre|);
  }

  lemma NoReturnAt(body: Bytes, i: nat)
    requires i < |body| && body[i] == '\n'
    ensures PastBreak(body, i) == i + 1
  {
    assert body[i..][0] == '\n';
  }

  lemma NoDashesAt(body: Bytes, i: nat)
    requires i < |body| && body[i] == '\n'
    ensures !MatchesAt(body, "--", i)
  {
    assert body[i..][0] == '\n';
  }

  lemma {:induction false} PrintedSplits(pre: Bytes, parts: seq<Source>, i: nat, delimiter: Bytes, epilogue: Bytes)
    requires i <= |parts| && delimiter != "" && NoBreaks(delimiter)
    requires forall p :: p in parts ==> FeedOk(p, delimiter)
    requires forall k: nat :: !MatchesAt(pre + Printed(parts, i, delimiter, epilogue), BLANK, k)
    ensures PartsFrom(pre + Printed(parts, i, delimiter, epilogue), delimiter, |pre|) == PartsOf(parts)[i..]
    decreases |parts| - i
  {
    hide PartsFrom, FeedOk, Head, PartOf, NoBreaks;
    var body := pre + Printed(parts, i, delimiter, epilogue);
    if i == |parts| {
      assert MatchesAt(body, "--", |pre|);
      PartsEnd(body, delimiter, |pre|);
    } else {
      var p, post := parts[i], Printed(parts, i + 1, delimiter, epilogue);
      var pre' := pre + LF + Head(p.lines) + LF_BLANK + p.data + LF + delimiter;
      assert body == pre' + post;
      PartIsNext(pre, p, delimiter, post);
      PrintedSplits(pre', parts, i + 1, delimiter, epilogue);
      assert PartsOf(parts)[i..] == [PartOf(p)] + PartsOf(parts)[i + 1..];
    }
  }

  /** Splitting a body printed with bare line feeds takes every part back as well, as long as the body nowhere holds
      the blank line of the other kind, for which the splitter looks first. */
  lemma LineFeedRoundTrip(parts: seq<Source>, boundary: Bytes, epilogue: Bytes)
    requires NoBreaks(boundary) && forall p :: p in parts ==> FeedOk(p, "--" + boundary)
    requires forall k: nat :: !MatchesAt(Body(parts, boundary, epilogue), BLANK, k)
    ensures Parts(Body(parts, boundary, epilogue), boundary) == PartsOf(parts)
  {
    hide Printed, PartsFrom, FeedOk, PartsOf;
    var delimiter := "--" + boundary;
    var body := Body(parts, boundary, epilogue);
    assert body == delimiter + Printed(parts, 0, delimiter, epilogue);
    assert MatchesAt(body, delimiter, 0);
    PrintedSplits(delimiter, parts, 0, delimiter, epilogue);
    assert PartsOf(parts)[0..] == PartsOf(parts);
  }

  /** Header names are read without regard to case: that of the 26 letters, and nothing else changes. */
  lemma LowerIsAscii(c: char)
    ensures LowerChar(c) == match c
      case 'A' => 'a' case 'B' => 'b' case 'C' => 'c' case 'D' => 'd' case 'E' => 'e' case 'F' => 'f' case 'G' => 'g'
      case 'H' => 'h' case 'I' => 'i' case 'J' => 'j' case 'K' => 'k' case 'L' => 'l' case 'M' => 'm' case 'N' => 'n'
      case 'O' => 'o' case 'P' => 'p' case 'Q' => 'q' case 'R' => 'r' case 'S' => 's' case 'T' => 't' case 'U' => 'u'
      case 'V' => 'v' case 'W' => 'w' case 'X' => 'x' case 'Y' => 'y' case 'Z' => 'z' case _ => c
  {
  }
}

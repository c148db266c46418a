/** The byte scanner that lists the top-level members of a JSON object without decoding them, and the
    printers that put member lists together again. JSON text is as in RFC 8259, sections 4 to 7. */
module JsonMembers {
  import opened Common

  /** A key, as the bytes between its quotes, and the whole member, key and value, as sent. */
  datatype Member = Member(key: Bytes, raw: Bytes)

  predicate IsBlank(c: char) {
    c == ' ' || c == '\t' || c == '\r' || c == '\n'
  }

  // ---------------------------------------------------------------------------------------------
  // The pieces of the scan: each starts at a place in the bytes and gives the place where it stops

  /** Past blanks, and past commas where they separate members. */
  function BlanksEnd(b: Bytes, i: nat, commas: bool): (r: nat)
    requires i <= |b|
    ensures i <= r <= |b|
    ensures r < |b| ==> !IsBlank(b[r]) && (commas ==> b[r] != ',')
    decreases |b| - i
  {
    if i < |b| && (IsBlank(b[i]) || (commas && b[i] == ',')) then BlanksEnd(b, i + 1, commas) else i
  }

  /** The first quote that no backslash escapes; the end when there is none. */
  function StringEnd(b: Bytes, i: nat, escaped: bool): (r: nat)
    requires i <= |b|
    ensures i <= r <= |b|
    ensures r < |b| ==> b[r] == '"'
    decreases |b| - i
  {
    if i == |b| || (!escaped && b[i] == '"') then i
    else StringEnd(b, i + 1, !escaped && b[i] == '\\')
  }

  /** The scanner's state inside a value. */
  datatype ValueState = ValueState(inString: bool, escaped: bool, objects: int, arrays: int)

  const GROUND := ValueState(false, false, 0, 0)

  function ValueStep(st: ValueState, c: char): ValueState {
    if st.inString then
      st.(inString := !(!st.escaped && c == '"'), escaped := !st.escaped && c == '\\')
    else if c == '"' then st.(inString := true, escaped := false)
    else if c == '{' then st.(objects := st.objects + 1)
    else if c == '}' then st.(objects := st.objects - 1)
    else if c == '[' then st.(arrays := st.arrays + 1)
    else if c == ']' then st.(arrays := st.arrays - 1)
    else st
  }

  predicate EndsValue(st: ValueState, c: char) {
    !st.inString && c == ',' && st.objects == 0 && st.arrays == 0
  }

  /** The comma that ends a value; the end when there is none. */
  function ValueEnd(b: Bytes, i: nat, st: ValueState): (r: nat)
    requires i <= |b|
    ensures i <= r <= |b|
    ensures r < |b| ==> b[r] == ','
    decreases |b| - i
  {
    if i == |b| || EndsValue(st, b[i]) then i else ValueEnd(b, i + 1, ValueStep(st, b[i]))
  }

  /** Back over the blanks that end a member. */
  function CutEnd(b: Bytes, lo: nat, hi: nat): (r: nat)
    requires lo <= hi <= |b|
    ensures lo <= r <= hi
    ensures lo < r ==> !IsBlank(b[r - 1])
    ensures forall k :: r <= k < hi ==> IsBlank(b[k])
  {
    if lo < hi && IsBlank(b[hi - 1]) then CutEnd(b, lo, hi - 1) else hi
  }

  /** The closing quote of the key and the colon behind it, for a member that starts here. */
  function HeadAt(b: Bytes, i: nat): (r: Option<(nat, nat)>)
    requires i < |b|
    ensures r.Some? ==> b[i] == '"' && i < r.value.0 < r.value.1 < |b|
    ensures r.Some? ==> b[r.value.0] == '"' && b[r.value.1] == ':'
  {
    if b[i] != '"' then None
    else
      var quote := StringEnd(b, i + 1, false);
      if quote == |b| then None
      else
        var colon := BlanksEnd(b, quote + 1, false);
        if colon == |b| || b[colon] != ':' then None else Some((quote, colon))
  }

  function MemberFrom(b: Bytes, i: nat, quote: nat, end: nat): Member
    requires i < quote < |b| && i <= end <= |b|
  {
    Member(b[i + 1..quote], b[i..end])
  }

  /** The member that starts here and the place where its value stops. */
  function NextAt(b: Bytes, i: nat): (r: Option<(Member, nat)>)
    requires i < |b|
    ensures r.Some? ==> i < r.value.1 <= |b|
  {
    var head := HeadAt(b, i);
    if head.None? then None
    else
      var (quote, colon) := head.value;
      var stop := ValueEnd(b, colon + 1, GROUND);
      Some((MemberFrom(b, i, quote, CutEnd(b, i, stop)), stop))
  }

  function Prepend(ms: seq<Member>, rest: Option<seq<Member>>): Option<seq<Member>> {
    if rest.None? then None else Some(ms + rest.value)
  }

  lemma PrependTwice(a: seq<Member>, b: seq<Member>, rest: Option<seq<Member>>)
    ensures Prepend(a, Prepend(b, rest)) == Prepend(a + b, rest)
    ensures Prepend([], rest) == rest
  {
    if rest.Some? {
      assert a + (b + rest.value) == a + b + rest.value;
      assert [] + rest.value == rest.value;
    }
  }

  /** The members from a place on; None for what the scanner gives up on. */
  function ScanAt(b: Bytes, i: nat): Option<seq<Member>>
    requires i <= |b|
    decreases |b| - i
  {
    var start := BlanksEnd(b, i, true);
    if start == |b| then Some([])
    else
      var next := NextAt(b, start);
      if next.None? then None else Prepend([next.value.0], ScanAt(b, next.value.1))
  }

  /** The top-level members of an object, or none at all when the bytes are not scanned to the end. */
  function TopLevel(rawObject: Bytes): seq<Member> {
    var raw := Trimmed(rawObject);
    if |raw| < 2 || raw[0] != '{' || raw[|raw| - 1] != '}' then []
    else
      var scanned := ScanAt(raw[..|raw| - 1], 1);
      if scanned.None? then [] else scanned.value
  }

  /** The scanner as written: one position running over the bytes before the closing brace. */
  method TopLevelMembers(rawObject: Bytes) returns (members: seq<Member>)
    ensures members == TopLevel(rawObject)
  {
    var raw := Trimmed(rawObject);
    members := [];
    if |raw| < 2 || raw[0] != '{' || raw[|raw| - 1] != '}' {
      return;
    }
    var body := raw[..|raw| - 1];
    var position := 1;
    PrependTwice([], [], ScanAt(body, 1));
    while position < |body|
      invariant 1 <= position <= |body|
      invariant Prepend(members, ScanAt(body, position)) == ScanAt(body, 1)
    {
      ghost var before := members;
      position := SkipBlanks(body, position, true);
      if position >= |body| {
        PrependTwice(members, [], Some([]));
        break;
      }
      var next := ReadMember(body, position);
      if next.None? {
        return [];
      }
      members := members + [next.value.0];
      position := next.value.1;
      PrependTwice(before, [next.value.0], ScanAt(body, position));
    }
  }

  /** One member: the quoted key, the colon, and the value up to its comma or the end. */
  method ReadMember(body: Bytes, memberStart: nat) returns (next: Option<(Member, nat)>)
    requires memberStart < |body|
    ensures next == NextAt(body, memberStart)
  {
    hide BlanksEnd, StringEnd, ValueEnd, CutEnd;
    if body[memberStart] != '"' {
      return None;
    }
    var keyStart := memberStart + 1;
    var position := SkipString(body, keyStart);
    if position >= |body| {
      return None;
    }
    var key := body[keyStart..position];
    position := position + 1;
    position := SkipBlanks(body, position, false);
    if position >= |body| || body[position] != ':' {
      return None;
    }
    position := position + 1;
    position := SkipValue(body, position);
    var memberEnd := TrimMember(body, memberStart, position);
    return Some((Member(key, body[memberStart..memberEnd]), position));
  }

  method SkipBlanks(body: Bytes, start: nat, commas: bool) returns (position: nat)
    requires start <= |body|
    ensures position == BlanksEnd(body, start, commas)
  {
    position := start;
    while position < |body| && (IsBlank(body[position]) || (commas && body[position] == ','))
      invariant start <= position <= |body|
      invariant BlanksEnd(body, start, commas) == BlanksEnd(body, position, commas)
    {
      position := position + 1;
    }
  }

  method SkipString(body: Bytes, start: nat) returns (position: nat)
    requires start <= |body|
    ensures position == StringEnd(body, start, false)
  {
    position := start;
    var escaped := false;
    while position < |body|
      invariant start <= position <= |body|
      invariant StringEnd(body, start, false) == StringEnd(body, position, escaped)
    {
      var current := body[position];
      if !escaped && current == '"' {
        break;
      }
      escaped := !escaped && current == '\\';
      if current != '\\' {
        escaped := false;
      }
      position := position + 1;
    }
  }

  method SkipValue(body: Bytes, start: nat) returns (position: nat)
    requires start <= |body|
    ensures position == ValueEnd(body, start, GROUND)
  {
    position := start;
    var inString, escaped, objectDepth, arrayDepth := false, false, 0, 0;
    while position < |body|
      invariant start <= position <= |body|
      invariant ValueEnd(body, start, GROUND) ==
                ValueEnd(body, position, ValueState(inString, escaped, objectDepth, arrayDepth))
    {
      var current := body[position];
      if inString {
        if !escaped && current == '"' {
          inString := false;
        }
        escaped := !escaped && current == '\\';
        if current != '\\' {
          escaped := false;
        }
      } else {
        if current == '"' {
          inString := true;
          escaped := false;
        } else if current == '{' {
          objectDepth := objectDepth + 1;
        } else if current == '}' {
          objectDepth := objectDepth - 1;
        } else if current == '[' {
          arrayDepth := arrayDepth + 1;
        } else if current == ']' {
          arrayDepth := arrayDepth - 1;
        } else if current == ',' && objectDepth == 0 && arrayDepth == 0 {
          break;
        }
      }
      position := position + 1;
    }
  }

  method TrimMember(body: Bytes, memberStart: nat, stop: nat) returns (memberEnd: nat)
    requires memberStart <= stop <= |body|
    ensures memberEnd == CutEnd(body, memberStart, stop)
  {
    memberEnd := stop;
    while memberEnd > memberStart && IsBlank(body[memberEnd - 1])
      invariant memberStart <= memberEnd <= stop
      invariant CutEnd(body, memberStart, memberEnd) == CutEnd(body, memberStart, stop)
    {
      memberEnd := memberEnd - 1;
    }
  }

  // ---------------------------------------------------------------------------------------------
  // Moving text: what stands before the start does not matter

  lemma {:induction false} ShiftBlanks(x: Bytes, y: Bytes, i: nat, commas: bool)
    requires i <= |y|
    ensures BlanksEnd(x + y, |x| + i, commas) == |x| + BlanksEnd(y, i, commas)
    decreases |y| - i
  {
    if i < |y| {
      assert (x + y)[|x| + i] == y[i];
      ShiftBlanks(x, y, i + 1, commas);
    }
  }

  lemma {:induction false} ShiftString(x: Bytes, y: Bytes, i: nat, escaped: bool)
    requires i <= |y|
    ensures StringEnd(x + y, |x| + i, escaped) == |x| + StringEnd(y, i, escaped)
    decreases |y| - i
  {
    if i < |y| {
      assert (x + y)[|x| + i] == y[i];
      ShiftString(x, y, i + 1, !escaped && y[i] == '\\');
    }
  }

  lemma {:induction false} ShiftValue(x: Bytes, y: Bytes, i: nat, st: ValueState)
    requires i <= |y|
    ensures ValueEnd(x + y, |x| + i, st) == |x| + ValueEnd(y, i, st)
    decreases |y| - i
  {
    if i < |y| {
      assert (x + y)[|x| + i] == y[i];
      ShiftValue(x, y, i + 1, ValueStep(st, y[i]));
    }
  }

  lemma {:induction false} ShiftCut(x: Bytes, y: Bytes, lo: nat, hi: nat)
    requires lo <= hi <= |y|
    ensures CutEnd(x + y, |x| + lo, |x| + hi) == |x| + CutEnd(y, lo, hi)
  {
    if lo < hi {
      assert (x + y)[|x| + hi - 1] == y[hi - 1];
      ShiftCut(x, y, lo, hi - 1);
    }
  }

  lemma ShiftHead(x: Bytes, y: Bytes, i: nat)
    requires i < |y|
    ensures HeadAt(x + y, |x| + i) ==
      if HeadAt(y, i).None? then None else Some((|x| + HeadAt(y, i).value.0, |x| + HeadAt(y, i).value.1))
  {
    assert (x + y)[|x| + i] == y[i];
    if y[i] == '"' {
      ShiftString(x, y, i + 1, false);
      var quote := StringEnd(y, i + 1, false);
      if quote < |y| {
        ShiftBlanks(x, y, quote + 1, false);
        var colon := BlanksEnd(y, quote + 1, false);
        assert colon < |y| ==> (x + y)[|x| + colon] == y[colon];
      }
    }
  }

  lemma ShiftMember(x: Bytes, y: Bytes, i: nat, quote: nat, end: nat)
    requires i < quote < |y| && i <= end <= |y|
    ensures MemberFrom(x + y, |x| + i, |x| + quote, |x| + end) == MemberFrom(y, i, quote, end)
  {
    assert (x + y)[|x| + i + 1..|x| + quote] == y[i + 1..quote];
    assert (x + y)[|x| + i..|x| + end] == y[i..end];
  }

  lemma ShiftNext(x: Bytes, y: Bytes, i: nat)
    requires i < |y|
    ensures NextAt(x + y, |x| + i) ==
      if NextAt(y, i).None? then None else Some((NextAt(y, i).value.0, |x| + NextAt(y, i).value.1))
  {
    hide HeadAt, ValueEnd, CutEnd, BlanksEnd, StringEnd, MemberFrom;
    ShiftHead(x, y, i);
    var head := HeadAt(y, i);
    if head.Some? {
      var (quote, colon) := head.value;
      ShiftValue(x, y, colon + 1, GROUND);
      var stop := ValueEnd(y, colon + 1, GROUND);
      ShiftCut(x, y, i, stop);
      ShiftMember(x, y, i, quote, CutEnd(y, i, stop));
    }
  }

  lemma {:induction false} ShiftScan(x: Bytes, y: Bytes, i: nat)
    requires i <= |y|
    ensures ScanAt(x + y, |x| + i) == ScanAt(y, i)
    decreases |y| - i
  {
    hide NextAt;
    ShiftBlanks(x, y, i, true);
    var start := BlanksEnd(y, i, true);
    if start < |y| {
      ShiftNext(x, y, start);
      if NextAt(y, start).Some? {
        ShiftScan(x, y, NextAt(y, start).value.1);
      }
    }
  }

  // ---------------------------------------------------------------------------------------------
  // Cutting and extending text behind a member

  /** The state after running from i to n. */
  function Run(b: Bytes, i: nat, n: nat, st: ValueState): ValueState
    requires i <= n <= |b|
    decreases n - i
  {
    if i == n then st else Run(b, i + 1, n, ValueStep(st, b[i]))
  }

  lemma {:induction false} PrefixString(p: Bytes, z: Bytes, i: nat, escaped: bool)
    requires i <= |p|
    ensures StringEnd(p, i, escaped) < |p| || StringEnd(p + z, i, escaped) < |p| ==>
      StringEnd(p + z, i, escaped) == StringEnd(p, i, escaped)
    ensures StringEnd(p, i, escaped) <= StringEnd(p + z, i, escaped)
    decreases |p| - i
  {
    if i < |p| {
      assert (p + z)[i] == p[i];
      PrefixString(p, z, i + 1, !escaped && p[i] == '\\');
    }
  }

  lemma {:induction false} PrefixBlanks(p: Bytes, z: Bytes, i: nat)
    requires i <= |p|
    ensures BlanksEnd(p, i, false) < |p| || BlanksEnd(p + z, i, false) < |p| ==>
      BlanksEnd(p + z, i, false) == BlanksEnd(p, i, false)
    decreases |p| - i
  {
    if i < |p| {
      assert (p + z)[i] == p[i];
      PrefixBlanks(p, z, i + 1);
    }
  }

  /** A head that lies inside p is found in p alone and with anything behind it. */
  lemma PrefixHead(p: Bytes, z: Bytes)
    requires p != []
    ensures HeadAt(p, 0).Some? ==> HeadAt(p + z, 0) == HeadAt(p, 0)
    ensures HeadAt(p + z, 0).Some? && HeadAt(p + z, 0).value.1 < |p| ==> HeadAt(p, 0) == HeadAt(p + z, 0)
  {
    var b := p + z;
    assert b[0] == p[0];
    if p[0] == '"' {
      PrefixString(p, z, 1, false);
      var q := StringEnd(p, 1, false);
      if q < |p| {
        PrefixBlanks(p, z, q + 1);
        var c := BlanksEnd(p, q + 1, false);
        if c < |p| {
          assert b[c] == p[c];
        }
      }
    }
  }

  /** A value that does not stop inside p runs on from the state it has at the end of p. */
  lemma {:induction false} ValueAcross(p: Bytes, z: Bytes, i: nat, st: ValueState)
    requires i <= |p|
    ensures ValueEnd(p, i, st) < |p| || ValueEnd(p + z, i, st) < |p| ==> ValueEnd(p + z, i, st) == ValueEnd(p, i, st)
    ensures ValueEnd(p, i, st) == |p| ==>
      ValueEnd(p + z, i, st) == ValueEnd(p + z, |p|, Run(p, i, |p|, st))
    decreases |p| - i
  {
    if i < |p| {
      assert (p + z)[i] == p[i];
      ValueAcross(p, z, i + 1, ValueStep(st, p[i]));
    }
  }

  /** Blanks at the end of a value leave the scanner where it was, except inside a string, where
      it stays inside the string. */
  lemma {:induction false} ThroughBlanks(b: Bytes, i: nat, n: nat, st: ValueState)
    requires i <= n <= |b| && forall k :: i <= k < n ==> IsBlank(b[k])
    requires ValueEnd(b, i, st) >= n
    ensures !st.inString ==> Run(b, i, n, st) == st
    ensures st.inString ==> Run(b, i, n, st).inString
    decreases n - i
  {
    if i < n {
      ThroughBlanks(b, i + 1, n, ValueStep(st, b[i]));
    }
  }

  // ---------------------------------------------------------------------------------------------
  // Members that can be scanned again

  /** Scanned alone, the member is read whole. */
  ghost predicate Whole(m: Member) {
    m.raw != [] && NextAt(m.raw, 0) == Some((m, |m.raw|))
  }

  /** And a comma put behind it ends it. */
  ghost predicate Closed(m: Member) {
    Whole(m) && NextAt(m.raw + ",", 0) == Some((m, |m.raw|))
  }

  /** Any member but the last must be closed by the comma that follows it. */
  ghost predicate Rescannable(ms: seq<Member>) {
    && (forall i :: 0 <= i < |ms| ==> Whole(ms[i]))
    && (forall i :: 0 <= i < |ms| - 1 ==> Closed(ms[i]))
  }

  /** The raw members with commas between. */
  function Join(ms: seq<Member>): Bytes {
    if ms == [] then ""
    else if |ms| == 1 then ms[0].raw
    else ms[0].raw + "," + Join(ms[1..])
  }

  /** Put between braces. */
  function Braced(ms: seq<Member>): Bytes {
    "{" + Join(ms) + "}"
  }

  lemma {:induction false} StopsAtComma(b: Bytes, i: nat, st: ValueState)
    requires i <= |b|
    ensures var n := ValueEnd(b, i, st);
      n < |b| ==> EndsValue(Run(b, i, n, st), b[n])
    decreases |b| - i
  {
    if i < |b| && !EndsValue(st, b[i]) {
      StopsAtComma(b, i + 1, ValueStep(st, b[i]));
    }
  }

  lemma CutNothing(p: Bytes, z: Bytes)
    requires p != [] && !IsBlank(p[|p| - 1])
    ensures CutEnd(p + z, 0, |p|) == |p|
    ensures CutEnd(p, 0, |p|) == |p|
  {
    assert (p + z)[|p| - 1] == p[|p| - 1];
  }

  lemma SameMember(p: Bytes, z: Bytes, quote: nat)
    requires 0 < quote < |p|
    ensures MemberFrom(p + z, 0, quote, |p|) == MemberFrom(p, 0, quote, |p|) == Member(p[1..quote], p)
  {
    assert (p + z)[1..quote] == p[1..quote];
    assert (p + z)[..|p|] == p;
    assert p[..|p|] == p;
  }

  lemma NextFromParts(b: Bytes, quote: nat, colon: nat, stop: nat, cut: nat)
    requires b != "" && HeadAt(b, 0) == Some((quote, colon))
    requires ValueEnd(b, colon + 1, GROUND) == stop && CutEnd(b, 0, stop) == cut
    ensures NextAt(b, 0) == Some((Member(b[1..quote], b[0..cut]), stop))
  {
  }

  /** The text of a member reaches past its colon. */
  lemma RawPastColon(p: Bytes, z: Bytes, m: Member, n: nat)
    requires p != [] && NextAt(p + z, 0) == Some((m, n)) && m.raw == p
    ensures HeadAt(p + z, 0).Some?
    ensures var (quote, colon) := HeadAt(p + z, 0).value;
      && CutEnd(p + z, 0, n) == |p| && colon < |p| <= n
      && !IsBlank(p[|p| - 1])
      && ValueEnd(p + z, colon + 1, GROUND) == n
      && m.key == (p + z)[1..quote]
  {
    hide BlanksEnd, StringEnd, ValueEnd, HeadAt, CutEnd;
    var (quote, colon) := HeadAt(p + z, 0).value;
    var cut := CutEnd(p + z, 0, n);
    assert |m.raw| == cut;
    assert (p + z)[colon] == ':' && colon < n;
    assert (p + z)[|p| - 1] == p[|p| - 1];
  }

  /** The first member of p + z is read whole from p alone when p is all of it but trailing blanks. */
  lemma ReadsAlone(p: Bytes, z: Bytes, m: Member, n: nat)
    requires p != [] && NextAt(p + z, 0) == Some((m, n)) && m.raw == p
    ensures Whole(m)
    ensures !IsBlank(p[|p| - 1]) && CutEnd(p + z, 0, n) == |p| && |p| <= n
    ensures HeadAt(p, 0).Some? && HeadAt(p + z, 0) == HeadAt(p, 0)
    ensures ValueEnd(p, HeadAt(p, 0).value.1 + 1, GROUND) == |p|
  {
    hide NextAt, BlanksEnd, StringEnd, ValueEnd, HeadAt, CutEnd, Run;
    RawPastColon(p, z, m, n);
    var (quote, colon) := HeadAt(p + z, 0).value;
    PrefixHead(p, z);
    ValueAcross(p, z, colon + 1, GROUND);
    CutNothing(p, z);
    assert (p + z)[1..quote] == p[1..quote];
    NextFromParts(p, quote, colon, |p|, |p|);
    assert p[0..|p|] == p;
  }

  lemma ClosesWhenFollowed(p: Bytes, z: Bytes, m: Member, n: nat)
    requires p != [] && NextAt(p + z, 0) == Some((m, n)) && m.raw == p && n < |p + z|
    ensures Closed(m)
  {
    ReadsAlone(p, z, m, n);
    var (quote, colon) := HeadAt(p, 0).value;
    var st := Run(p, colon + 1, |p|, GROUND);
    ValueAcross(p, z, colon + 1, GROUND);
    StopsAtComma(p + z, |p|, st);
    ThroughBlanks(p + z, |p|, n, st);
    assert EndsValue(st, ',');
    EndsWithComma(m, quote, colon, "");
    assert p + "," + "" == p + ",";
  }

  /** A member whose value may end at a comma is ended by one, whatever follows. */
  lemma EndsWithComma(m: Member, quote: nat, colon: nat, z: Bytes)
    requires Whole(m) && HeadAt(m.raw, 0) == Some((quote, colon))
    requires EndsValue(Run(m.raw, colon + 1, |m.raw|, GROUND), ',')
    ensures NextAt(m.raw + "," + z, 0) == Some((m, |m.raw|))
  {
    hide BlanksEnd, StringEnd;
    var p, rest := m.raw, "," + z;
    assert p + "," + z == p + rest;
    PrefixHead(p, rest);
    ValueAcross(p, rest, colon + 1, GROUND);
    assert (p + rest)[|p|] == ',';
    assert p[|p| - 1] == p[..CutEnd(p, 0, |p|)][|p| - 1];
    CutNothing(p, rest);
    SameMember(p, rest, quote);
    SameMember(p, "", quote);
  }

  /** At the end of the member's text the scanner is outside strings and outside all brackets of the value. */
  predicate AtRest(m: Member) {
    m.raw != "" && HeadAt(m.raw, 0).Some?
    && EndsValue(Run(m.raw, HeadAt(m.raw, 0).value.1 + 1, |m.raw|, GROUND), ',')
  }

  lemma ClosedIsAtRest(m: Member)
    requires Closed(m)
    ensures AtRest(m)
  {
    hide BlanksEnd, StringEnd, CutEnd, HeadAt, NextAt;
    var p := m.raw;
    ReadsAlone(p, ",", m, |p|);
    var (quote, colon) := HeadAt(p, 0).value;
    NextStops(p + ",", m, |p|);
    ValueAcross(p, ",", colon + 1, GROUND);
    StopsAtComma(p + ",", |p|, Run(p, colon + 1, |p|, GROUND));
    assert Run(p + ",", |p|, |p|, Run(p, colon + 1, |p|, GROUND)) == Run(p, colon + 1, |p|, GROUND);
  }

  lemma NextStops(b: Bytes, m: Member, n: nat)
    requires b != "" && NextAt(b, 0) == Some((m, n))
    ensures HeadAt(b, 0).Some? && ValueEnd(b, HeadAt(b, 0).value.1 + 1, GROUND) == n
  {
  }

  lemma AtRestIsEnded(m: Member, z: Bytes)
    requires Whole(m) && AtRest(m)
    ensures NextAt(m.raw + "," + z, 0) == Some((m, |m.raw|))
  {
    hide NextAt, HeadAt, Run;
    EndsWithComma(m, HeadAt(m.raw, 0).value.0, HeadAt(m.raw, 0).value.1, z);
  }

  /** A comma ends a member exactly when its text leaves the scanner outside strings and brackets. */
  lemma ClosedIffAtRest(m: Member)
    requires Whole(m)
    ensures Closed(m) <==> AtRest(m)
  {
    hide NextAt, HeadAt, Run;
    if Closed(m) {
      ClosedIsAtRest(m);
    }
    if AtRest(m) {
      AtRestIsEnded(m, "");
      assert m.raw + "," + "" == m.raw + ",";
    }
  }

  lemma ClosedIsEnded(m: Member, z: Bytes)
    requires Closed(m)
    ensures NextAt(m.raw + "," + z, 0) == Some((m, |m.raw|))
  {
    ClosedIsAtRest(m);
    AtRestIsEnded(m, z);
  }

  /** The raw member is the text from where it starts. */
  lemma RawIsText(b: Bytes, i: nat)
    requires i < |b| && NextAt(b, i).Some?
    ensures var (m, stop) := NextAt(b, i).value;
      m.raw != [] && i + |m.raw| <= stop && m.raw == b[i..i + |m.raw|]
  {
    hide BlanksEnd, StringEnd, ValueEnd;
    var (m, stop) := NextAt(b, i).value;
    assert i < stop && !IsBlank(b[i]);
    assert |m.raw| == CutEnd(b, i, stop) - i;
  }

  /** What the scanner reads anywhere can be read again on its own, and closed when more follows. */
  lemma ReadMemberRescans(b: Bytes, i: nat)
    requires i < |b| && NextAt(b, i).Some?
    ensures var (m, stop) := NextAt(b, i).value;
      Whole(m) && (stop < |b| ==> Closed(m))
  {
    hide NextAt, HeadAt;
    var (m, stop) := NextAt(b, i).value;
    RawIsText(b, i);
    var x, p, z := b[..i], m.raw, b[i + |m.raw|..];
    assert b == x + (p + z);
    ShiftNext(x, p + z, 0);
    ReadsAlone(p, z, m, stop - i);
    if stop < |b| {
      ClosesWhenFollowed(p, z, m, stop - i);
    }
  }

  /** Every list of members that the scanner returns can be scanned again. */
  lemma {:induction false} ScannedRescans(b: Bytes, i: nat)
    requires i <= |b| && ScanAt(b, i).Some?
    ensures Rescannable(ScanAt(b, i).value)
    decreases |b| - i
  {
    hide NextAt, BlanksEnd;
    var start := BlanksEnd(b, i, true);
    if start < |b| {
      ReadMemberRescans(b, start);
      var (m, stop) := NextAt(b, start).value;
      ScannedRescans(b, stop);
      var rest := ScanAt(b, stop).value;
      assert ScanAt(b, i).value == [m] + rest;
      if stop == |b| {
        NothingAtEnd(b);
      }
    }
  }

  lemma NothingAtEnd(b: Bytes)
    ensures ScanAt(b, |b|) == Some([])
  {
  }

  lemma SkipComma(b: Bytes, i: nat)
    requires i < |b| && b[i] == ','
    ensures ScanAt(b, i) == ScanAt(b, i + 1)
  {
  }

  lemma StartsWithQuote(m: Member, z: Bytes)
    requires Whole(m)
    ensures (m.raw + z)[0] == m.raw[0] == '"'
    ensures BlanksEnd(m.raw + z, 0, true) == 0
  {
  }

  /** Scanning the joined members gives them back. */
  lemma {:induction false} JoinScans(ms: seq<Member>)
    requires Rescannable(ms)
    ensures ScanAt(Join(ms), 0) == Some(ms)
    decreases |ms|
  {
    hide NextAt, BlanksEnd;
    if ms == [] {
      NothingAtEnd("");
    } else if |ms| == 1 {
      var m := ms[0];
      StartsWithQuote(m, "");
      assert m.raw + "" == m.raw;
      NothingAtEnd(m.raw);
      assert [m] + [] == ms;
    } else {
      var m, later := ms[0], Join(ms[1..]);
      assert forall i :: 0 <= i < |ms| - 1 ==> ms[1..][i] == ms[i + 1];
      JoinScans(ms[1..]);
      var b := m.raw + "," + later;
      StartsWithQuote(m, "," + later);
      assert m.raw + ("," + later) == b;
      ClosedIsEnded(m, later);
      assert b[|m.raw|] == ',';
      SkipComma(b, |m.raw|);
      ShiftScan(m.raw + ",", later, 0);
      assert [m] + ms[1..] == ms;
    }
  }

  lemma TrimmedBraced(s: Bytes)
    ensures Trimmed("{" + s + "}") == "{" + s + "}"
  {
  }

  /** The members of a braced list are the list. */
  lemma BracedScans(ms: seq<Member>)
    requires Rescannable(ms)
    ensures TopLevel(Braced(ms)) == ms
  {
    hide ScanAt;
    var raw := Braced(ms);
    TrimmedBraced(Join(ms));
    assert raw[..|raw| - 1] == "{" + Join(ms);
    JoinScans(ms);
    ShiftScan("{", Join(ms), 0);
  }

  lemma TopLevelRescans(x: Bytes)
    ensures Rescannable(TopLevel(x))
  {
    hide ScanAt;
    var raw := Trimmed(x);
    if |raw| >= 2 && ScanAt(raw[..|raw| - 1], 1).Some? {
      ScannedRescans(raw[..|raw| - 1], 1);
    }
  }

  /** For every byte string, well formed or not: printing the scanned members and scanning again
      changes nothing. */
  lemma ScanIsIdempotent(x: Bytes)
    ensures TopLevel(Braced(TopLevel(x))) == TopLevel(x)
  {
    TopLevelRescans(x);
    BracedScans(TopLevel(x));
  }

  /** A list of members, put between braces, scans back to itself exactly when each member reads alone and
      each but the last is ended by the comma behind it. */
  lemma ReadsBackIffRescannable(ms: seq<Member>)
    ensures TopLevel(Braced(ms)) == ms <==> Rescannable(ms)
  {
    hide TopLevel, Rescannable, Braced;
    TopLevelRescans(Braced(ms));
    if Rescannable(ms) {
      BracedScans(ms);
    }
  }

  // ---------------------------------------------------------------------------------------------
  // Nothing is skipped, and what ends a value

  /** Only blanks and commas. */
  ghost predicate Gap(b: Bytes, i: nat, j: nat) {
    i <= j <= |b| && forall k :: i <= k < j ==> IsBlank(b[k]) || b[k] == ','
  }

  /** From place i on the bytes are these members, one after the other, with nothing but blanks and commas around. */
  ghost predicate Laid(b: Bytes, i: nat, ms: seq<Member>)
    decreases |ms|
  {
    if ms == [] then Gap(b, i, |b|)
    else exists j: nat :: Gap(b, i, j) && StandsAt(b, j, ms[0].raw) && Laid(b, j + |ms[0].raw|, ms[1..])
  }

  predicate StandsAt(b: Bytes, j: nat, text: Bytes) {
    j + |text| <= |b| && b[j..j + |text|] == text
  }

  lemma {:induction false} BlanksAreGap(b: Bytes, i: nat, commas: bool)
    requires i <= |b|
    ensures Gap(b, i, BlanksEnd(b, i, commas))
    decreases |b| - i
  {
    if BlanksEnd(b, i, commas) > i {
      BlanksAreGap(b, i + 1, commas);
    }
  }

  lemma LaidEarlier(b: Bytes, i: nat, j: nat, ms: seq<Member>)
    requires Gap(b, i, j) && Laid(b, j, ms)
    ensures Laid(b, i, ms)
  {
    if ms != [] {
      var k: nat :| Gap(b, j, k) && StandsAt(b, k, ms[0].raw) && Laid(b, k + |ms[0].raw|, ms[1..]);
      assert Gap(b, i, k);
    }
  }

  /** The member and the gap behind it, up to the place where its value stops. */
  lemma NextStands(b: Bytes, i: nat)
    requires i < |b| && NextAt(b, i).Some?
    ensures var (m, stop) := NextAt(b, i).value;
      StandsAt(b, i, m.raw) && Gap(b, i + |m.raw|, stop)
  {
    hide StringEnd, BlanksEnd, ValueEnd, CutEnd;
  }

  lemma {:induction false} ScanLays(b: Bytes, i: nat)
    requires i <= |b| && ScanAt(b, i).Some?
    ensures Laid(b, i, ScanAt(b, i).value)
    decreases |b| - i
  {
    hide NextAt, Gap, StandsAt;
    var start := BlanksEnd(b, i, true);
    BlanksAreGap(b, i, true);
    if start < |b| {
      var (m, stop) := NextAt(b, start).value;
      var rest := ScanAt(b, stop).value;
      NextStands(b, start);
      ScanLays(b, stop);
      LaidEarlier(b, start + |m.raw|, stop, rest);
      assert ([m] + rest)[0] == m && ([m] + rest)[1..] == rest;
    }
  }

  /** For every byte string: the scanner returns nothing at all, or the bytes are a brace, the members returned with
      nothing but blanks and commas around them, and a brace: no byte of the object is passed over. */
  lemma NothingIsSkipped(x: Bytes)
    ensures TopLevel(x) != [] ==>
      var raw := Trimmed(x);
      |raw| >= 2 && raw[0] == '{' && raw[|raw| - 1] == '}' && Laid(raw[..|raw| - 1], 1, TopLevel(x))
  {
    hide ScanAt, Laid, Trimmed;
    var raw := Trimmed(x);
    if |raw| >= 2 && ScanAt(raw[..|raw| - 1], 1).Some? {
      ScanLays(raw[..|raw| - 1], 1);
    }
  }

  function Occurs(b: Bytes, c: char): nat {
    multiset(b)[c]
  }

  /** Over text without quotes the scanner's depths count brackets. */
  lemma {:induction false} RunCounts(b: Bytes, i: nat, st: ValueState)
    requires i <= |b| && !st.inString && forall k :: i <= k < |b| ==> b[k] != '"'
    ensures var end, rest := Run(b, i, |b|, st), b[i..];
      && !end.inString
      && end.objects == st.objects + Occurs(rest, '{') - Occurs(rest, '}')
      && end.arrays == st.arrays + Occurs(rest, '[') - Occurs(rest, ']')
    decreases |b| - i
  {
    if i < |b| {
      RunCounts(b, i + 1, ValueStep(st, b[i]));
      assert b[i..] == [b[i]] + b[i + 1..];
    }
  }

  /** A value without quotes is at rest, so that a comma ends it, exactly when its brackets of both kinds balance. */
  lemma BalancedIsAtRest(m: Member)
    requires m.raw != "" && HeadAt(m.raw, 0).Some?
    requires forall k :: HeadAt(m.raw, 0).value.1 < k < |m.raw| ==> m.raw[k] != '"'
    ensures var value := m.raw[HeadAt(m.raw, 0).value.1 + 1..];
      AtRest(m) <==> Occurs(value, '{') == Occurs(value, '}') && Occurs(value, '[') == Occurs(value, ']')
  {
    hide HeadAt, Run, Occurs;
    var from := HeadAt(m.raw, 0).value.1 + 1;
    RunCounts(m.raw, from, GROUND);
  }
}

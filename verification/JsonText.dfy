/** JSON objects as printed text with arbitrary white space (RFC 8259, sections 2 and 4 to 7), what
    the member scanner makes of them, and the two rewrites that print scanned members again. */
module JsonText {
  import opened Common
  import opened JsonMembers

  /** One character of a string: itself, or a backslash and what it escapes. */
  datatype StrItem = Plain(c: char) | Escaped(c: char)

  datatype JValue =
    | Scalar(text: Bytes)
    | Str(items: seq<StrItem>)
    | Arr(pad: Bytes, elems: Elems)
    | Obj(pad: Bytes, fields: Fields)

  datatype Elems = NoElems | Elem(before: Bytes, value: JValue, after: Bytes, rest: Elems)

  datatype Fields =
    | NoFields
    | Field(before: Bytes, key: seq<StrItem>, beforeColon: Bytes, afterColon: Bytes, value: JValue,
            after: Bytes, rest: Fields)

  predicate AllBlank(s: Bytes) {
    forall k :: 0 <= k < |s| ==> IsBlank(s[k])
  }

  predicate ItemsOk(items: seq<StrItem>) {
    forall k :: 0 <= k < |items| && items[k].Plain? ==> items[k].c != '"' && items[k].c != '\\'
  }

  predicate IsScalarChar(c: char) {
    !IsBlank(c) && c != '"' && c != '{' && c != '}' && c != '[' && c != ']' && c != ','
  }

  /** Numbers, true, false and null hold no quote, bracket, comma or blank. */
  predicate ValueOk(v: JValue) {
    match v
    case Scalar(text) => text != "" && forall k :: 0 <= k < |text| ==> IsScalarChar(text[k])
    case Str(items) => ItemsOk(items)
    case Arr(pad, elems) => AllBlank(pad) && ElemsOk(elems)
    case Obj(pad, fields) => AllBlank(pad) && FieldsOk(fields)
  }

  predicate ElemsOk(es: Elems) {
    es.Elem? ==> AllBlank(es.before) && ValueOk(es.value) && AllBlank(es.after) && ElemsOk(es.rest)
  }

  predicate FieldsOk(fs: Fields) {
    fs.Field? ==>
      && AllBlank(fs.before) && ItemsOk(fs.key) && AllBlank(fs.beforeColon) && AllBlank(fs.afterColon)
      && ValueOk(fs.value) && AllBlank(fs.after) && FieldsOk(fs.rest)
  }

  function PrintItem(item: StrItem): Bytes {
    match item
    case Plain(c) => [c]
    case Escaped(c) => ['\\', c]
  }

  function PrintItems(items: seq<StrItem>): Bytes {
    if items == [] then "" else PrintItem(items[0]) + PrintItems(items[1..])
  }

  function Print(v: JValue): Bytes
    decreases v, 0
  {
    match v
    case Scalar(text) => text
    case Str(items) => "\"" + PrintItems(items) + "\""
    case Arr(pad, elems) => "[" + pad + PrintElems(elems) + "]"
    case Obj(pad, fields) => "{" + pad + PrintFields(fields) + "}"
  }

  function PrintElems(es: Elems): Bytes
    decreases es, 0
  {
    if es.NoElems? then ""
    else es.before + Print(es.value) + es.after + (if es.rest.NoElems? then "" else "," + PrintElems(es.rest))
  }

  function PrintMember(key: Bytes, beforeColon: Bytes, afterColon: Bytes, value: JValue): Bytes
    decreases value, 1
  {
    "\"" + key + "\"" + beforeColon + ":" + afterColon + Print(value)
  }

  function PrintFields(fs: Fields): Bytes
    decreases fs, 0
  {
    if fs.NoFields? then ""
    else
      fs.before + PrintMember(PrintItems(fs.key), fs.beforeColon, fs.afterColon, fs.value) + fs.after +
      (if fs.rest.NoFields? then "" else "," + PrintFields(fs.rest))
  }

  /** The members an object holds: key text and member text, without the white space around them. */
  function MembersOf(fs: Fields): seq<Member> {
    if fs.NoFields? then []
    else [Member(PrintItems(fs.key), PrintMember(PrintItems(fs.key), fs.beforeColon, fs.afterColon, fs.value))]
         + MembersOf(fs.rest)
  }

  // ---------------------------------------------------------------------------------------------
  // Text that runs through the value scanner without ending the value

  /** From state a, the scanner reads all of s and is then in state z. */
  ghost predicate Passes(s: Bytes, a: ValueState, z: ValueState) {
    ValueEnd(s, 0, a) == |s| && Run(s, 0, |s|, a) == z
  }

  lemma {:induction false} ShiftRun(x: Bytes, y: Bytes, i: nat, st: ValueState)
    requires i <= |y|
    ensures Run(x + y, |x| + i, |x| + |y|, st) == Run(y, i, |y|, st)
    decreases |y| - i
  {
    if i < |y| {
      assert (x + y)[|x| + i] == y[i];
      ShiftRun(x, y, i + 1, ValueStep(st, y[i]));
    }
  }

  lemma {:induction false} RunAcross(p: Bytes, z: Bytes, i: nat, st: ValueState)
    requires i <= |p|
    ensures Run(p + z, i, |p| + |z|, st) == Run(p + z, |p|, |p| + |z|, Run(p, i, |p|, st))
    decreases |p| - i
  {
    if i < |p| {
      assert (p + z)[i] == p[i];
      RunAcross(p, z, i + 1, ValueStep(st, p[i]));
    }
  }

  lemma PassesBoth(s: Bytes, t: Bytes, a: ValueState, m: ValueState, z: ValueState)
    requires Passes(s, a, m) && Passes(t, m, z)
    ensures Passes(s + t, a, z)
  {
    ValueAcross(s, t, 0, a);
    ShiftValue(s, t, 0, m);
    RunAcross(s, t, 0, a);
    ShiftRun(s, t, 0, m);
  }

  lemma PassesChar(c: char, st: ValueState)
    requires !EndsValue(st, c)
    ensures Passes([c], st, ValueStep(st, c))
  {
  }

  lemma {:induction false} PassesPlain(s: Bytes, st: ValueState)
    requires !st.inString
    requires forall k :: 0 <= k < |s| ==> IsBlank(s[k]) || IsScalarChar(s[k])
    ensures Passes(s, st, st)
  {
    if s != [] {
      PassesChar(s[0], st);
      PassesPlain(s[1..], st);
      PassesBoth([s[0]], s[1..], st, st, st);
      assert [s[0]] + s[1..] == s;
    }
  }

  lemma {:induction false} PassesItems(items: seq<StrItem>, st: ValueState)
    requires ItemsOk(items) && st.inString && !st.escaped
    ensures Passes(PrintItems(items), st, st)
  {
    if items != [] {
      var first := PrintItem(items[0]);
      match items[0] {
        case Plain(c) =>
          PassesChar(c, st);
        case Escaped(c) =>
          PassesChar('\\', st);
          var mid := st.(escaped := true);
          PassesChar(c, mid);
          PassesBoth(['\\'], [c], st, mid, st);
          assert ['\\'] + [c] == first;
      }
      PassesItems(items[1..], st);
      PassesBoth(first, PrintItems(items[1..]), st, st, st);
    }
  }

  /** The scanner is between tokens, at some depth. */
  predicate Level(st: ValueState) {
    !st.inString && !st.escaped && st.objects >= 0 && st.arrays >= 0
  }

  lemma PassesEnclosed(open: char, body: Bytes, close: char, st: ValueState, inner: ValueState)
    requires !EndsValue(st, open) && ValueStep(st, open) == inner
    requires Passes(body, inner, inner)
    requires !EndsValue(inner, close) && ValueStep(inner, close) == st
    ensures Passes([open] + body + [close], st, st)
  {
    PassesChar(open, st);
    PassesChar(close, inner);
    PassesBoth([open], body, st, inner, inner);
    PassesBoth([open] + body, [close], st, inner, st);
  }

  /** A printed value, at any depth, is read whole and leaves the scanner at the same depth. */
  lemma {:induction false} PassesValue(v: JValue, st: ValueState)
    requires ValueOk(v) && Level(st)
    ensures Passes(Print(v), st, st)
    decreases v, 1
  {
    match v
    case Scalar(text) =>
      PassesPlain(text, st);
    case Str(items) =>
      var inner := st.(inString := true);
      PassesItems(items, inner);
      PassesEnclosed('"', PrintItems(items), '"', st, inner);
    case Arr(pad, elems) =>
      var inner := st.(arrays := st.arrays + 1);
      PassesPlain(pad, inner);
      PassesElems(elems, inner);
      PassesBoth(pad, PrintElems(elems), inner, inner, inner);
      PassesEnclosed('[', pad + PrintElems(elems), ']', st, inner);
      assert "[" + (pad + PrintElems(elems)) + "]" == Print(v);
    case Obj(pad, fields) =>
      var inner := st.(objects := st.objects + 1);
      PassesPlain(pad, inner);
      PassesFields(fields, inner);
      PassesBoth(pad, PrintFields(fields), inner, inner, inner);
      PassesEnclosed('{', pad + PrintFields(fields), '}', st, inner);
      assert "{" + (pad + PrintFields(fields)) + "}" == Print(v);
  }

  lemma {:induction false} PassesElems(es: Elems, st: ValueState)
    requires ElemsOk(es) && Level(st) && st.arrays > 0
    ensures Passes(PrintElems(es), st, st)
    decreases es, 0
  {
    if es.Elem? {
      var value := Print(es.value);
      PassesPlain(es.before, st);
      PassesValue(es.value, st);
      PassesPlain(es.after, st);
      PassesBoth(es.before, value, st, st, st);
      PassesBoth(es.before + value, es.after, st, st, st);
      PassesRest(es.before + value + es.after, PrintElems(es.rest), es.rest.NoElems?, st) by {
        PassesElems(es.rest, st);
      }
    }
  }

  lemma PassesRest(head: Bytes, later: Bytes, last: bool, st: ValueState)
    requires Level(st) && (st.arrays > 0 || st.objects > 0)
    requires Passes(head, st, st) && Passes(later, st, st)
    ensures Passes(head + (if last then "" else "," + later), st, st)
  {
    if last {
      assert head + "" == head;
    } else {
      PassesChar(',', st);
      PassesBoth(",", later, st, st, st);
      PassesBoth(head, "," + later, st, st, st);
    }
  }

  lemma {:induction false} PassesFields(fs: Fields, st: ValueState)
    requires FieldsOk(fs) && Level(st) && st.objects > 0
    ensures Passes(PrintFields(fs), st, st)
    decreases fs, 0
  {
    if fs.Field? {
      var key := PrintItems(fs.key);
      var inKey := st.(inString := true);
      PassesItems(fs.key, inKey);
      PassesEnclosed('"', key, '"', st, inKey);
      PassesPlain(fs.before, st);
      PassesPlain(fs.beforeColon + ":" + fs.afterColon, st);
      PassesValue(fs.value, st);
      PassesPlain(fs.after, st);
      var member := PrintMember(key, fs.beforeColon, fs.afterColon, fs.value);
      PassesBoth("\"" + key + "\"", fs.beforeColon + ":" + fs.afterColon, st, st, st);
      PassesBoth("\"" + key + "\"" + (fs.beforeColon + ":" + fs.afterColon), Print(fs.value), st, st, st);
      assert "\"" + key + "\"" + (fs.beforeColon + ":" + fs.afterColon) + Print(fs.value) == member;
      PassesBoth(fs.before, member, st, st, st);
      PassesBoth(fs.before + member, fs.after, st, st, st);
      PassesFields(fs.rest, st);
      PassesRest(fs.before + member + fs.after, PrintFields(fs.rest), fs.rest.NoFields?, st);
    }
  }

  // ---------------------------------------------------------------------------------------------
  // Printed members are read back

  /** Between quotes, the key ends at the closing quote and not before. */
  ghost predicate KeyOk(key: Bytes) {
    StringEnd(key + "\"", 0, false) == |key|
  }

  lemma {:induction false} ItemsAreKey(items: seq<StrItem>)
    requires ItemsOk(items)
    ensures KeyOk(PrintItems(items))
  {
    if items != [] {
      var first, later := PrintItem(items[0]), PrintItems(items[1..]) + "\"";
      ItemsAreKey(items[1..]);
      assert PrintItems(items) + "\"" == first + later;
      ShiftString(first, later, 0, false);
    }
  }

  lemma {:induction false} PlainKey(key: Bytes, i: nat)
    requires i <= |key| && forall k :: 0 <= k < |key| ==> key[k] != '"' && key[k] != '\\'
    ensures StringEnd(key + "\"", i, false) == |key|
    decreases |key| - i
  {
    if i < |key| {
      PlainKey(key, i + 1);
    }
  }

  lemma {:induction false} BlanksPass(ws: Bytes, tail: Bytes, i: nat, commas: bool)
    requires i <= |ws| && AllBlank(ws)
    requires tail == "" || (!IsBlank(tail[0]) && (commas ==> tail[0] != ','))
    ensures BlanksEnd(ws + tail, i, commas) == |ws|
    decreases |ws| - i
  {
    if i < |ws| {
      BlanksPass(ws, tail, i + 1, commas);
    }
  }

  /** The head of a printed member. */
  lemma HeadOfPrinted(key: Bytes, beforeColon: Bytes, rest: Bytes)
    requires KeyOk(key) && AllBlank(beforeColon)
    ensures HeadAt("\"" + key + "\"" + beforeColon + ":" + rest, 0)
         == Some((|key| + 1, |key| + 2 + |beforeColon|))
  {
    hide StringEnd, BlanksEnd;
    var behind := beforeColon + ":" + rest;
    var b := "\"" + key + "\"" + behind;
    assert b == "\"" + key + "\"" + beforeColon + ":" + rest;
    PrefixString(key + "\"", behind, 0, false);
    ShiftString("\"", key + "\"" + behind, 0, false);
    assert b == "\"" + (key + "\"" + behind);
    BlanksPass(beforeColon, ":" + rest, 0, false);
    assert beforeColon + (":" + rest) == behind;
    ShiftBlanks("\"" + key + "\"", behind, 0, false);
    assert b[|key| + 2 + |beforeColon|] == ':';
  }

  /** A value ends in something that is no blank. */
  lemma LastOfValue(v: JValue)
    requires ValueOk(v)
    ensures Print(v) != "" && !IsBlank(Print(v)[|Print(v)| - 1])
  {
  }

  lemma {:induction false} CutTail(p: Bytes, ws: Bytes, tail: Bytes, n: nat)
    requires p != "" && !IsBlank(p[|p| - 1]) && AllBlank(ws) && n <= |ws|
    ensures CutEnd(p + ws + tail, 0, |p| + n) == |p|
  {
    var b := p + ws + tail;
    if n == 0 {
      assert b[|p| - 1] == p[|p| - 1];
    } else {
      assert b[|p| + n - 1] == ws[n - 1];
      CutTail(p, ws, tail, n - 1);
    }
  }

  /** A printed member, then blanks, then a comma or nothing: read whole, without the blanks. */
  lemma PrintedMemberReads(
    key: Bytes, beforeColon: Bytes, afterColon: Bytes, value: JValue, after: Bytes, tail: Bytes)
    requires KeyOk(key) && AllBlank(beforeColon) && AllBlank(afterColon) && ValueOk(value) && AllBlank(after)
    requires tail == "" || tail[0] == ','
    ensures var raw := PrintMember(key, beforeColon, afterColon, value);
      NextAt(raw + after + tail, 0) == Some((Member(key, raw), |raw| + |after|))
  {
    hide *;
    var raw := PrintMember(key, beforeColon, afterColon, value);
    var head := "\"" + key + "\"" + beforeColon + ":";
    var text := afterColon + Print(value) + after;
    PrintedSplits(key, beforeColon, afterColon, value, after, tail);
    HeadOfPrinted(key, beforeColon, text + tail);
    PassesText(afterColon, value, after);
    ValueOfPrinted(head, text, tail);
    CutTail(raw, after, tail, |after|);
    NextFromParts(raw + after + tail, |key| + 1, |head| - 1, |head| + |text|, |raw|);
  }

  /** The same text, split where the scanner turns. */
  lemma PrintedSplits(
    key: Bytes, beforeColon: Bytes, afterColon: Bytes, value: JValue, after: Bytes, tail: Bytes)
    requires ValueOk(value)
    ensures var raw := PrintMember(key, beforeColon, afterColon, value);
      var head := "\"" + key + "\"" + beforeColon + ":";
      var text := afterColon + Print(value) + after;
      var b := raw + after + tail;
      && b == head + (text + tail)
      && b == "\"" + key + "\"" + beforeColon + ":" + (text + tail)
      && |raw| + |after| == |head| + |text|
      && raw != "" && !IsBlank(raw[|raw| - 1])
      && b[1..|key| + 1] == key && b[0..|raw|] == raw
      && |head| == |key| + 3 + |beforeColon|
  {
    hide Print;
    LastOfValue(value);
    var raw := PrintMember(key, beforeColon, afterColon, value);
    assert raw[|raw| - 1] == Print(value)[|Print(value)| - 1];
  }

  lemma ValueOfPrinted(head: Bytes, text: Bytes, tail: Bytes)
    requires Passes(text, GROUND, GROUND)
    requires tail == "" || tail[0] == ','
    ensures ValueEnd(head + (text + tail), |head|, GROUND) == |head| + |text|
  {
    ValueAcross(text, tail, 0, GROUND);
    StopsHere(text + tail, |text|);
    ShiftValue(head, text + tail, 0, GROUND);
  }

  lemma PassesText(afterColon: Bytes, value: JValue, after: Bytes)
    requires AllBlank(afterColon) && ValueOk(value) && AllBlank(after)
    ensures Passes(afterColon + Print(value) + after, GROUND, GROUND)
  {
    PassesPlain(afterColon, GROUND);
    PassesValue(value, GROUND);
    PassesPlain(after, GROUND);
    PassesBoth(afterColon, Print(value), GROUND, GROUND, GROUND);
    PassesBoth(afterColon + Print(value), after, GROUND, GROUND, GROUND);
  }

  lemma StopsHere(b: Bytes, i: nat)
    requires i == |b| || (i < |b| && b[i] == ',')
    ensures ValueEnd(b, i, GROUND) == i
  {
  }

  /** A printed member may stand anywhere in a list. */
  lemma PrintedMemberCloses(key: Bytes, beforeColon: Bytes, afterColon: Bytes, value: JValue)
    requires KeyOk(key) && AllBlank(beforeColon) && AllBlank(afterColon) && ValueOk(value)
    ensures Closed(Member(key, PrintMember(key, beforeColon, afterColon, value)))
  {
    hide NextAt, Print;
    var raw := PrintMember(key, beforeColon, afterColon, value);
    PrintedMemberReads(key, beforeColon, afterColon, value, "", "");
    PrintedMemberReads(key, beforeColon, afterColon, value, "", ",");
    assert raw + "" + "" == raw && raw + "" + "," == raw + ",";
  }

  /** Blanks, then a member: the scan goes on behind the member. */
  lemma ScanPastFirst(front: Bytes, text: Bytes, m: Member, n: nat)
    requires AllBlank(front) && text != "" && text[0] == '"' && NextAt(text, 0) == Some((m, n))
    ensures ScanAt(front + text, 0) == Prepend([m], ScanAt(text, n))
  {
    hide NextAt, BlanksEnd;
    BlanksPass(front, text, 0, true);
    ShiftNext(front, text, 0);
    ShiftScan(front, text, n);
  }

  /** Behind a member there is nothing, or a comma and the rest. */
  lemma ScanTail(head: Bytes, later: Bytes, last: bool)
    ensures var text := head + (if last then "" else "," + later);
      ScanAt(text, |head|) == if last then Some([]) else ScanAt(later, 0)
  {
    hide NextAt, BlanksEnd, ScanAt;
    if last {
      assert head + "" == head;
      NothingAtEnd(head);
    } else {
      var text := head + ("," + later);
      assert text[|head|] == ',';
      SkipComma(text, |head|);
      assert text == (head + ",") + later;
      ShiftScan(head + ",", later, 0);
    }
  }

  /** The text between the braces of a printed object, with any white space, scans to its members. */
  lemma {:induction false} FieldsScan(pad: Bytes, fs: Fields)
    requires AllBlank(pad) && FieldsOk(fs)
    ensures ScanAt(pad + PrintFields(fs), 0) == Some(MembersOf(fs))
    decreases fs
  {
    hide NextAt, PrintMember, BlanksEnd, HeadAt, ScanAt, PrintItems;
    if fs.NoFields? {
      assert pad + PrintFields(fs) == pad + "";
      ScanNothing(pad);
    } else {
      var key := PrintItems(fs.key);
      var raw := PrintMember(key, fs.beforeColon, fs.afterColon, fs.value);
      var head := raw + fs.after;
      var tail := if fs.rest.NoFields? then "" else "," + PrintFields(fs.rest);
      assert pad + PrintFields(fs) == (pad + fs.before) + (head + tail);
      ItemsAreKey(fs.key);
      PrintedMemberReads(key, fs.beforeColon, fs.afterColon, fs.value, fs.after, tail);
      RawStartsWithQuote(key, fs.beforeColon, fs.afterColon, fs.value);
      assert (head + tail)[0] == raw[0];
      ScanPastFirst(pad + fs.before, head + tail, Member(key, raw), |head|);
      ScanTail(head, PrintFields(fs.rest), fs.rest.NoFields?);
      if fs.rest.Field? {
        FieldsScan("", fs.rest);
        assert "" + PrintFields(fs.rest) == PrintFields(fs.rest);
      }
    }
  }

  lemma ScanNothing(pad: Bytes)
    requires AllBlank(pad)
    ensures ScanAt(pad + "", 0) == Some([])
  {
    BlanksPass(pad, "", 0, true);
  }

  lemma RawStartsWithQuote(key: Bytes, beforeColon: Bytes, afterColon: Bytes, value: JValue)
    ensures PrintMember(key, beforeColon, afterColon, value) != ""
    ensures PrintMember(key, beforeColon, afterColon, value)[0] == '"'
  {
  }

  /** Every JSON object, printed with any white space, nesting and escapes, scans to exactly its
      members in order, each with its key and its text byte for byte. */
  lemma PrintedObjectScans(lead: Bytes, pad: Bytes, fs: Fields, trail: Bytes)
    requires AllSpace(lead) && AllSpace(trail) && ValueOk(Obj(pad, fs))
    ensures TopLevel(lead + Print(Obj(pad, fs)) + trail) == MembersOf(fs)
  {
    hide ScanAt, PrintFields, MembersOf, Trimmed;
    var body := pad + PrintFields(fs);
    var raw := "{" + body + "}";
    assert Print(Obj(pad, fs)) == raw;
    TrimmedMiddle(lead, raw, trail);
    assert raw[..|raw| - 1] == "{" + body;
    FieldsScan(pad, fs);
    ShiftScan("{", body, 0);
  }

  ghost predicate AllClosed(ms: seq<Member>) {
    forall i :: 0 <= i < |ms| ==> Closed(ms[i])
  }

  lemma {:induction false} PrintedMembersClose(fs: Fields)
    requires FieldsOk(fs)
    ensures AllClosed(MembersOf(fs))
    decreases fs
  {
    hide Closed, PrintMember, PrintItems;
    if fs.Field? {
      ItemsAreKey(fs.key);
      PrintedMemberCloses(PrintItems(fs.key), fs.beforeColon, fs.afterColon, fs.value);
      PrintedMembersClose(fs.rest);
    }
  }

  // ---------------------------------------------------------------------------------------------
  // The answer that delivers a claim

  predicate IsEnvelope(m: Member) {
    m.key == "MessageId" || m.key == "ResKind"
  }

  /** The members that are not part of the envelope, in order. */
  function ExceptEnvelope(ms: seq<Member>): seq<Member> {
    if ms == [] then []
    else (if IsEnvelope(ms[0]) then [] else [ms[0]]) + ExceptEnvelope(ms[1..])
  }

  /** Nothing but envelope members is lost, and nothing is repeated. */
  lemma {:induction false} ExceptEnvelopeKeeps(a: seq<Member>, m: Member)
    ensures multiset(ExceptEnvelope(a))[m] == if m.key in {"ResKind", "MessageId"} then 0 else multiset(a)[m]
  {
    if a != [] {
      ExceptEnvelopeKeeps(a[1..], m);
      assert a == [a[0]] + a[1..];
    }
  }

  /** Order is kept. */
  lemma {:induction false} ExceptEnvelopeInOrder(a: seq<Member>, b: seq<Member>)
    ensures ExceptEnvelope(a + b) == ExceptEnvelope(a) + ExceptEnvelope(b)
  {
    hide IsEnvelope;
    if a == [] {
      assert a + b == b;
    } else {
      var first := if IsEnvelope(a[0]) then [] else [a[0]];
      ExceptEnvelopeInOrder(a[1..], b);
      assert (a + b)[0] == a[0] && (a + b)[1..] == a[1..] + b;
      assert first + (ExceptEnvelope(a[1..]) + ExceptEnvelope(b))
          == (first + ExceptEnvelope(a[1..])) + ExceptEnvelope(b);
    }
  }

  method TopLevelMembersExceptEnvelope(rawObject: Bytes) returns (others: seq<Member>)
    ensures others == ExceptEnvelope(TopLevel(rawObject))
  {
    hide IsEnvelope, TopLevel, ExceptEnvelope;
    var members := TopLevelMembers(rawObject);
    others := [];
    NoneButEnvelope();
    assert members[..0] == [];
    for k := 0 to |members|
      invariant others == ExceptEnvelope(members[..k])
    {
      OneMoreMember(members, k);
      if !IsEnvelope(members[k]) {
        others := others + [members[k]];
      }
    }
    assert members[..|members|] == members;
  }

  lemma NoneButEnvelope()
    ensures ExceptEnvelope([]) == []
  {
  }

  lemma OneMoreMember(ms: seq<Member>, k: nat)
    requires k < |ms|
    ensures ExceptEnvelope(ms[..k + 1]) == ExceptEnvelope(ms[..k]) + if IsEnvelope(ms[k]) then [] else [ms[k]]
  {
    hide IsEnvelope;
    ExceptEnvelopeInOrder(ms[..k], [ms[k]]);
    assert ms[..k + 1] == ms[..k] + [ms[k]];
    assert [ms[k]][1..] == [];
  }

  const RESPONSE_NAME := "SummonDataCreateResponse"
  const RES_KIND_OK := Member("ResKind", PrintMember("ResKind", "", "", Scalar("0")))
  const CREATE_RESPONSE := Member("MessageId", PrintMember("MessageId", "", "", Str(PlainItems(RESPONSE_NAME))))

  function PlainItems(text: Bytes): (r: seq<StrItem>)
    ensures |r| == |text| && forall k :: 0 <= k < |text| ==> r[k] == Plain(text[k])
  {
    seq(|text|, i requires 0 <= i < |text| => Plain(text[i]))
  }

  /** The members of the answer: a fresh envelope, then the claim's other members. */
  function DeliveryMembers(rawClaim: Bytes): seq<Member> {
    [RES_KIND_OK, CREATE_RESPONSE] + ExceptEnvelope(TopLevel(rawClaim))
  }

  method BuildClaimDeliveryResponse(rawClaim: Bytes) returns (response: Bytes)
    ensures response ==
      if ExceptEnvelope(TopLevel(rawClaim)) == [] then "" else Braced(DeliveryMembers(rawClaim))
  {
    hide TopLevel, ExceptEnvelope, Print, PrintMember, PlainItems, Join;
    var members := TopLevelMembersExceptEnvelope(rawClaim);
    if members == [] {
      return "";
    }
    response := "{" + RES_KIND_OK.raw + "," + CREATE_RESPONSE.raw;
    EnvelopeJoins();
    for k := 0 to |members|
      invariant response == "{" + Join([RES_KIND_OK, CREATE_RESPONSE] + members[..k])
    {
      ghost var before := [RES_KIND_OK, CREATE_RESPONSE] + members[..k];
      response := response + "," + members[k].raw;
      JoinMore(before, members[k]);
      assert "{" + Join(before) + "," + members[k].raw == "{" + (Join(before) + "," + members[k].raw);
      assert [RES_KIND_OK, CREATE_RESPONSE] + members[..k + 1] == before + [members[k]];
    }
    assert members[..|members|] == members;
    response := response + "}";
  }

  lemma EnvelopeJoins()
    ensures "{" + RES_KIND_OK.raw + "," + CREATE_RESPONSE.raw == "{" + Join([RES_KIND_OK, CREATE_RESPONSE] + [])
  {
    hide Print, PrintMember, PlainItems;
    JoinMore([RES_KIND_OK], CREATE_RESPONSE);
    assert [RES_KIND_OK] + [CREATE_RESPONSE] == [RES_KIND_OK, CREATE_RESPONSE] + [];
    assert "{" + (RES_KIND_OK.raw + "," + CREATE_RESPONSE.raw) == "{" + RES_KIND_OK.raw + "," + CREATE_RESPONSE.raw;
  }

  lemma {:induction false} JoinMore(ms: seq<Member>, m: Member)
    requires ms != []
    ensures Join(ms + [m]) == Join(ms) + "," + m.raw
    decreases |ms|
  {
    assert (ms + [m])[0] == ms[0] && (ms + [m])[1..] == ms[1..] + [m];
    if |ms| == 1 {
      assert ms[1..] + [m] == [m];
    } else {
      JoinMore(ms[1..], m);
    }
  }

  lemma EnvelopeCloses()
    ensures Closed(RES_KIND_OK) && Closed(CREATE_RESPONSE)
  {
    hide Closed;
    PlainKey("ResKind", 0);
    PrintedMemberCloses("ResKind", "", "", Scalar("0"));
    PlainKey("MessageId", 0);
    PrintedMemberCloses("MessageId", "", "", Str(PlainItems(RESPONSE_NAME)));
  }

  /** The envelope in the source's own spelling. */
  lemma EnvelopeText()
    ensures RES_KIND_OK.raw == "\"ResKind\":0"
    ensures CREATE_RESPONSE.raw == "\"MessageId\":\"" + RESPONSE_NAME + "\""
    ensures RESPONSE_NAME == "SummonDataCreateResponse"
  {
    assert "\"" + "ResKind" == "\"ResKind";
    assert "\"" + "MessageId" == "\"MessageId";
    PrintsPlain(RESPONSE_NAME);
    QuotedKey("ResKind", Scalar("0"));
    QuotedKey("MessageId", Str(PlainItems(RESPONSE_NAME)));
    assert "\"MessageId\":" + ("\"" + RESPONSE_NAME + "\"") == "\"MessageId\":\"" + RESPONSE_NAME + "\"";
  }

  lemma QuotedKey(key: Bytes, value: JValue)
    ensures PrintMember(key, "", "", value) == "\"" + key + "\":" + Print(value)
  {
  }

  lemma {:induction false} PrintsPlain(text: Bytes)
    ensures PrintItems(PlainItems(text)) == text
  {
    if text != "" {
      assert PlainItems(text)[1..] == PlainItems(text[1..]);
      PrintsPlain(text[1..]);
    }
  }

  lemma {:induction false} OthersRescan(ms: seq<Member>)
    requires Rescannable(ms)
    ensures Rescannable(ExceptEnvelope(ms))
    ensures forall m :: m in ExceptEnvelope(ms) ==> m in ms && !IsEnvelope(m)
    ensures ms != [] && ExceptEnvelope(ms[1..]) != [] ==> Closed(ms[0])
    decreases |ms|
  {
    hide Closed, Whole;
    if ms != [] {
      var later := ms[1..];
      assert forall i :: 0 <= i < |later| ==> later[i] == ms[i + 1];
      OthersRescan(later);
    }
  }

  /** For every claim text, well formed or not, that has a member outside the envelope: the answer
      scans to the fresh ResKind and MessageId and then the claim's other members, byte for byte and
      in order, with no second envelope member. */
  lemma DeliveryKeepsClaim(rawClaim: Bytes)
    requires ExceptEnvelope(TopLevel(rawClaim)) != []
    ensures var others := ExceptEnvelope(TopLevel(rawClaim));
      && TopLevel(Braced(DeliveryMembers(rawClaim))) == [RES_KIND_OK, CREATE_RESPONSE] + others
      && (forall i :: 0 <= i < |others| ==> others[i] in TopLevel(rawClaim) && !IsEnvelope(others[i]))
  {
    hide Closed, Whole, TopLevel;
    EnvelopeCloses();
    TopLevelRescans(rawClaim);
    OthersRescan(TopLevel(rawClaim));
    var all := DeliveryMembers(rawClaim);
    ClosedAreWhole([RES_KIND_OK, CREATE_RESPONSE]);
    BracedScans(all);
  }

  /** For a claim that is a JSON object, printed in any way: the answer's members are the fresh envelope and
      the object's own members outside the envelope, each with the very text it was sent in. */
  lemma PrintedClaimIsDelivered(lead: Bytes, pad: Bytes, fs: Fields, trail: Bytes)
    requires AllSpace(lead) && AllSpace(trail) && ValueOk(Obj(pad, fs)) && ExceptEnvelope(MembersOf(fs)) != []
    ensures TopLevel(Braced(DeliveryMembers(lead + Print(Obj(pad, fs)) + trail)))
            == [RES_KIND_OK, CREATE_RESPONSE] + ExceptEnvelope(MembersOf(fs))
  {
    hide TopLevel, Print, MembersOf, ExceptEnvelope, Braced, PrintMember;
    PrintedObjectScans(lead, pad, fs, trail);
    DeliveryKeepsClaim(lead + Print(Obj(pad, fs)) + trail);
  }

  lemma ClosedAreWhole(ms: seq<Member>)
    requires AllClosed(ms)
    ensures Rescannable(ms)
  {
  }

  // ---------------------------------------------------------------------------------------------
  // The advertisement as a searching host sees it

  /** The fields that tell where the sign stands, in the order they are added when missing. */
  const SPOOFED_KEYS: seq<Bytes> :=
    ["AreaId", "AreaRegionId", "ChannelId", "MatchingLevel", "PosX", "PosY", "PosZ"]

  /** ShouldSpoofAdvertisementField: the test by which a member is replaced. */
  predicate ShouldSpoof(key: Bytes) {
    || key == "AreaId" || key == "AreaRegionId" || key == "ChannelId" || key == "MatchingLevel"
    || key == "PosX" || key == "PosY" || key == "PosZ"
  }

  /** The two lists of the source name the same fields. */
  lemma SpoofedKeysAgree(key: Bytes)
    ensures ShouldSpoof(key) <==> key in SPOOFED_KEYS
  {
    assert SPOOFED_KEYS[0] == "AreaId" && SPOOFED_KEYS[1] == "AreaRegionId" && SPOOFED_KEYS[2] == "ChannelId";
    assert SPOOFED_KEYS[3] == "MatchingLevel" && SPOOFED_KEYS[4] == "PosX" && SPOOFED_KEYS[5] == "PosY";
    assert SPOOFED_KEYS[6] == "PosZ";
  }

  /** Values the request puts in place of the advertiser's; `summonData` is the advertised payload
      with its result count set, when it has one to set. */
  datatype Rewrite = Rewrite(summonData: Option<JValue>, request: map<Bytes, JValue>, spoofLocation: bool)

  ghost predicate RewriteOk(w: Rewrite) {
    && (w.summonData.Some? ==> ValueOk(w.summonData.value))
    && (forall k :: k in w.request ==> ValueOk(w.request[k]))
  }

  function Replacement(w: Rewrite, key: Bytes): Option<JValue> {
    if key == "SummonData" && w.summonData.Some? then w.summonData
    else if w.spoofLocation && ShouldSpoof(key) && key in w.request then Some(w.request[key])
    else None
  }

  function RewriteMember(w: Rewrite, m: Member): Member {
    var r := Replacement(w, m.key);
    if r.None? then m else Member(m.key, PrintMember(m.key, "", "", r.value))
  }

  function RewriteAll(w: Rewrite, ms: seq<Member>): (r: seq<Member>)
    ensures |r| == |ms| && forall i :: 0 <= i < |ms| ==> r[i] == RewriteMember(w, ms[i])
  {
    seq(|ms|, i requires 0 <= i < |ms| => RewriteMember(w, ms[i]))
  }

  function Keys(ms: seq<Member>): set<Bytes> {
    set m | m in ms :: m.key
  }

  /** Location fields the request has and the advertisement lacks. */
  function Missing(w: Rewrite, emitted: set<Bytes>, keys: seq<Bytes>): seq<Member> {
    if keys == [] then []
    else
      (if keys[0] !in emitted && keys[0] in w.request
       then [Member(keys[0], PrintMember(keys[0], "", "", w.request[keys[0]]))] else [])
      + Missing(w, emitted, keys[1..])
  }

  function SearchMembers(w: Rewrite, ms: seq<Member>): seq<Member> {
    RewriteAll(w, ms) + Added(w, ms)
  }

  method PrepareAdvertisementForSearch(rawAdvertisement: Bytes, w: Rewrite) returns (out: Bytes)
    ensures var members := TopLevel(rawAdvertisement);
      out == if members == [] then rawAdvertisement else Braced(SearchMembers(w, members))
  {
    hide TopLevel, Print, PrintMember, Join, Missing;
    var members := TopLevelMembers(rawAdvertisement);
    if members == [] {
      return rawAdvertisement;
    }
    var emitted: set<Bytes> := {};
    ghost var written: seq<Member> := [];
    out := "{";
    var first := true;
    JoinNothing();
    for k := 0 to |members|
      invariant emitted == Keys(members[..k])
      invariant written == RewriteAll(w, members[..k])
      invariant first <==> written == []
      invariant out == "{" + Join(written)
    {
      var member := members[k];
      assert members[..k + 1] == members[..k] + [member];
      emitted := emitted + {member.key};
      out := AppendMember(out, RewriteMember(w, member), first, written);
      first := false;
      written := written + [RewriteMember(w, member)];
    }
    assert members[..|members|] == members;
    if w.spoofLocation {
      out := AppendMissing(out, w, emitted, written);
    } else {
      assert written + [] == written;
    }
    out := out + "}";
  }

  method AppendMissing(out: Bytes, w: Rewrite, emitted: set<Bytes>, ghost written: seq<Member>) returns (longer: Bytes)
    requires written != [] && out == "{" + Join(written)
    ensures longer == "{" + Join(written + Missing(w, emitted, SPOOFED_KEYS))
  {
    hide Print, PrintMember, Join, Missing;
    ghost var all := written + Missing(w, emitted, SPOOFED_KEYS);
    ghost var now := written;
    longer := out;
    for k := 0 to |SPOOFED_KEYS|
      invariant now + Missing(w, emitted, SPOOFED_KEYS[k..]) == all
      invariant now != [] && longer == "{" + Join(now)
    {
      var key := SPOOFED_KEYS[k];
      MissingStep(w, emitted, k);
      if key !in emitted && key in w.request {
        var added := Member(key, PrintMember(key, "", "", w.request[key]));
        assert now + ([added] + Missing(w, emitted, SPOOFED_KEYS[k + 1..])) ==
               now + [added] + Missing(w, emitted, SPOOFED_KEYS[k + 1..]);
        longer := AppendMember(longer, added, false, now);
        now := now + [added];
      } else {
        assert [] + Missing(w, emitted, SPOOFED_KEYS[k + 1..]) == Missing(w, emitted, SPOOFED_KEYS[k + 1..]);
      }
    }
    MissingStops(w, emitted);
    assert now + [] == now;
  }

  lemma MissingStep(w: Rewrite, emitted: set<Bytes>, k: nat)
    requires k < |SPOOFED_KEYS|
    ensures var key := SPOOFED_KEYS[k];
      Missing(w, emitted, SPOOFED_KEYS[k..]) ==
        (if key !in emitted && key in w.request
         then [Member(key, PrintMember(key, "", "", w.request[key]))] else [])
        + Missing(w, emitted, SPOOFED_KEYS[k + 1..])
  {
    hide PrintMember;
    var keys := SPOOFED_KEYS;
    assert keys[k..][1..] == keys[k + 1..];
  }

  lemma MissingStops(w: Rewrite, emitted: set<Bytes>)
    ensures Missing(w, emitted, SPOOFED_KEYS[|SPOOFED_KEYS|..]) == []
  {
  }

  /** Adds a member behind those already written. Scanned and printed members are never empty, so
      the source's skipping of empty ones has nothing to skip. */
  method AppendMember(out: Bytes, member: Member, first: bool, ghost written: seq<Member>) returns (longer: Bytes)
    requires first <==> written == []
    requires out == "{" + Join(written)
    ensures longer == "{" + Join(written + [member])
  {
    longer := out;
    if !first {
      JoinMore(written, member);
      longer := longer + ",";
    }
    longer := longer + member.raw;
    assert "{" + Join(written) + "," + member.raw == "{" + (Join(written) + "," + member.raw);
    assert first ==> written + [member] == [member] && "{" + "" + member.raw == "{" + member.raw;
  }

  lemma JoinNothing()
    ensures "{" == "{" + Join([])
  {
  }

  /** The key of a member that reads back is a proper key. */
  lemma KeyOfWhole(m: Member)
    requires Whole(m)
    ensures KeyOk(m.key)
  {
    hide BlanksEnd, ValueEnd, CutEnd;
    var raw := m.raw;
    var (quote, colon) := HeadAt(raw, 0).value;
    var rest := raw[quote + 1..];
    assert raw == "\"" + (m.key + "\"" + rest);
    ShiftString("\"", m.key + "\"" + rest, 0, false);
    PrefixString(m.key + "\"", rest, 0, false);
  }

  /** A replaced member may stand anywhere; one that is kept reads as before. */
  lemma RewrittenReads(w: Rewrite, m: Member)
    requires RewriteOk(w) && Whole(m)
    ensures Whole(RewriteMember(w, m)) && RewriteMember(w, m).key == m.key
    ensures Closed(RewriteMember(w, m)) <==> Closed(m) || Replacement(w, m.key).Some?
  {
    hide NextAt, PrintMember, SPOOFED_KEYS;
    var r := Replacement(w, m.key);
    if r.Some? {
      KeyOfWhole(m);
      PrintedMemberCloses(m.key, "", "", r.value);
    }
  }

  lemma SpoofedKeyOk(key: Bytes)
    requires key in SPOOFED_KEYS
    ensures KeyOk(key)
  {
    hide StringEnd;
    var k :| 0 <= k < |SPOOFED_KEYS| && SPOOFED_KEYS[k] == key;
    assert forall j :: 0 <= j < |key| ==> key[j] != '"' && key[j] != '\\';
    PlainKey(key, 0);
  }

  lemma {:induction false} MissingFacts(w: Rewrite, emitted: set<Bytes>, keys: seq<Bytes>)
    requires RewriteOk(w) && forall k :: k in keys ==> k in SPOOFED_KEYS
    ensures var ms := Missing(w, emitted, keys);
      && AllClosed(ms)
      && Keys(ms) == (set k | k in keys && k !in emitted && k in w.request)
      && (forall m :: m in ms ==> m.key in w.request && m.raw == PrintMember(m.key, "", "", w.request[m.key]))
    decreases |keys|
  {
    hide Closed, PrintMember, SPOOFED_KEYS;
    if keys != [] {
      var key := keys[0];
      var later := Missing(w, emitted, keys[1..]);
      assert forall k :: k in keys <==> k == key || k in keys[1..];
      MissingFacts(w, emitted, keys[1..]);
      if key !in emitted && key in w.request {
        SpoofedKeyOk(key);
        PrintedMemberCloses(key, "", "", w.request[key]);
        var m := Member(key, PrintMember(key, "", "", w.request[key]));
        assert Missing(w, emitted, keys) == [m] + later;
        assert Keys([m] + later) == Keys(later) + {key} by {
          assert forall x :: x in [m] + later <==> x == m || x in later;
        }
      } else {
        assert Missing(w, emitted, keys) == [] + later == later;
      }
    }
  }

  /** The location fields that a spoofing search adds. */
  function Added(w: Rewrite, ms: seq<Member>): seq<Member> {
    if w.spoofLocation then Missing(w, Keys(ms), SPOOFED_KEYS) else []
  }

  /** The search spoofs a location field that the request has and the advertisement lacks. */
  predicate AddsFields(w: Rewrite, ms: seq<Member>) {
    w.spoofLocation && exists k :: k in SPOOFED_KEYS && k in w.request && k !in Keys(ms)
  }

  lemma AddsFieldsIff(w: Rewrite, ms: seq<Member>)
    requires RewriteOk(w)
    ensures Added(w, ms) != [] <==> AddsFields(w, ms)
  {
    hide Missing, SPOOFED_KEYS, PrintMember, Closed;
    MissingFacts(w, Keys(ms), SPOOFED_KEYS);
    var added := Missing(w, Keys(ms), SPOOFED_KEYS);
    if AddsFields(w, ms) {
      var k :| k in SPOOFED_KEYS && k in w.request && k !in Keys(ms);
      assert k in Keys(added);
    }
    if w.spoofLocation && added != [] {
      var k := added[0].key;
      assert k in Keys(added);
      assert k in SPOOFED_KEYS && k in w.request && k !in Keys(ms);
    }
  }

  /** No field is added, or the last member is replaced, or at its end the scanner is outside strings and
      brackets. */
  predicate Extends(w: Rewrite, ms: seq<Member>)
    requires ms != []
  {
    AddsFields(w, ms) ==> AtRest(ms[|ms| - 1]) || Replacement(w, ms[|ms| - 1].key).Some?
  }

  /** For every byte string, malformed ones included: what a search prints reads back as the members written
      exactly when no field is added behind a last member that leaves a string or bracket open. */
  lemma SearchReadsBackIff(rawAdvertisement: Bytes, w: Rewrite)
    requires RewriteOk(w) && TopLevel(rawAdvertisement) != []
    ensures var members := TopLevel(rawAdvertisement);
      TopLevel(Braced(SearchMembers(w, members))) == SearchMembers(w, members) <==> Extends(w, members)
  {
    hide Closed, Whole, TopLevel, PrintMember, Missing, SPOOFED_KEYS, Braced, AtRest, AddsFields;
    var members := TopLevel(rawAdvertisement);
    var n := |members|;
    var all := SearchMembers(w, members);
    TopLevelRescans(rawAdvertisement);
    forall i | 0 <= i < n
      ensures Whole(all[i]) && (i < n - 1 ==> Closed(all[i]))
    {
      assert all[i] == RewriteMember(w, members[i]);
      RewrittenReads(w, members[i]);
    }
    RewrittenReads(w, members[n - 1]);
    assert all[n - 1] == RewriteMember(w, members[n - 1]);
    ClosedIffAtRest(members[n - 1]);
    AddsFieldsIff(w, members);
    AddedClose(w, members);
    assert all == RewriteAll(w, members) + Added(w, members);
    assert forall i :: n <= i < |all| ==> all[i] == Added(w, members)[i - n];
    ReadsBackIffRescannable(all);
  }

  lemma AddedClose(w: Rewrite, ms: seq<Member>)
    requires RewriteOk(w)
    ensures forall i :: 0 <= i < |Added(w, ms)| ==> Whole(Added(w, ms)[i]) && Closed(Added(w, ms)[i])
  {
    hide NextAt, PrintMember, Missing, SPOOFED_KEYS;
    MissingFacts(w, Keys(ms), SPOOFED_KEYS);
  }

  /** The members of a printed object always let others follow. */
  lemma PrintedObjectExtends(fs: Fields, w: Rewrite)
    requires FieldsOk(fs) && fs.Field?
    ensures Extends(w, MembersOf(fs))
  {
    hide Closed, MembersOf, PrintMember, PrintItems, AddsFields, Replacement, AtRest;
    PrintedMembersClose(fs);
    FieldsHaveMembers(fs);
    ClosedIsAtRest(MembersOf(fs)[|MembersOf(fs)| - 1]);
  }

  /** For every advertisement that is a JSON object, as the route that admits them has parsed it to be: what
      a search prints reads back as the members written. */
  lemma PrintedAdvertisementReadsBack(lead: Bytes, pad: Bytes, fs: Fields, trail: Bytes, w: Rewrite)
    requires RewriteOk(w) && AllSpace(lead) && AllSpace(trail) && ValueOk(Obj(pad, fs)) && fs.Field?
    ensures TopLevel(lead + Print(Obj(pad, fs)) + trail) == MembersOf(fs)
    ensures TopLevel(Braced(SearchMembers(w, MembersOf(fs)))) == SearchMembers(w, MembersOf(fs))
  {
    hide TopLevel, Print, MembersOf, Braced, SearchMembers, Extends;
    PrintedObjectScans(lead, pad, fs, trail);
    FieldsHaveMembers(fs);
    PrintedObjectExtends(fs, w);
    SearchReadsBackIff(lead + Print(Obj(pad, fs)) + trail, w);
  }

  lemma FieldsHaveMembers(fs: Fields)
    ensures fs.Field? ==> MembersOf(fs) != []
  {
  }

  /** On raw bytes that are no JSON object the other side of SearchReadsBackIff is real: text that ends inside
      a string takes the added field for part of that string. */
  lemma OpenStringSwallowsAddedField(w: Rewrite)
    requires RewriteOk(w) && w.spoofLocation && "AreaId" in w.request
    ensures TopLevel("{\"a\":\"}") == [Member("a", OPEN_STRING)]
    ensures var members := TopLevel("{\"a\":\"}");
      TopLevel(Braced(SearchMembers(w, members))) != SearchMembers(w, members)
  {
    hide TopLevel, Braced, SearchMembers, AtRest, PrintMember, AddsFields;
    var m := Member("a", OPEN_STRING);
    OpenStringReads();
    SearchReadsBackIff("{\"a\":\"}", w);
    AreaIdIsAdded(w, m);
    AddsFieldsIff(w, [m]);
  }

  lemma AreaIdIsAdded(w: Rewrite, m: Member)
    requires w.spoofLocation && "AreaId" in w.request && m.key == "a"
    ensures Added(w, [m]) != [] && Replacement(w, m.key).None?
  {
    hide PrintMember;
    assert Keys([m]) == {"a"};
    assert SPOOFED_KEYS[0] == "AreaId" && |"AreaId"| == 6;
    assert "a" !in SPOOFED_KEYS by {
      assert forall k :: k in SPOOFED_KEYS ==> |k| > 1;
    }
  }

  /** The text of a member whose value is a string that never closes. */
  const OPEN_STRING := "\"a\":\""

  lemma OpenStringIsMember()
    ensures NextAt(OPEN_STRING, 0) == Some((Member("a", OPEN_STRING), 5))
    ensures HeadAt(OPEN_STRING, 0) == Some((2, 3))
  {
    var raw := OPEN_STRING;
    assert StringEnd(raw, 2, false) == 2;
    assert BlanksEnd(raw, 3, false) == 3;
    assert ValueEnd(raw, 5, ValueState(true, false, 0, 0)) == 5;
    CutNothing(raw, "");
    assert raw[1..2] == "a" && raw[0..5] == raw;
    hide CutEnd;
    NextFromParts(raw, 2, 3, 5, 5);
  }

  lemma OpenStringTakesComma()
    ensures !Closed(Member("a", OPEN_STRING))
  {
    hide StringEnd, BlanksEnd, CutEnd;
    OpenStringIsMember();
    var raw := OPEN_STRING;
    PrefixHead(raw, ",");
    assert (raw + ",")[5] == ',' && (raw + ",")[4] == '"';
    assert ValueEnd(raw + ",", 6, ValueState(true, false, 0, 0)) == 6;
    assert ValueEnd(raw + ",", 5, ValueState(true, false, 0, 0)) == 6;
  }

  lemma OpenStringReads()
    ensures TopLevel("{\"a\":\"}") == [Member("a", OPEN_STRING)]
    ensures !AtRest(Member("a", OPEN_STRING))
  {
    OpenStringTakesComma();
    OpenStringIsMember();
    hide NextAt, HeadAt, TopLevel, AtRest;
    var m := Member("a", OPEN_STRING);
    ClosedIffAtRest(m);
    BracedScans([m]);
    assert Braced([m]) == "{\"a\":\"}";
  }

  /** What a search hands out, where the advertisement's last member lets others follow it (as that of every
      printed object does): it scans to the advertisement's members in place, each one byte for byte unless
      replaced, then the request's location fields that the advertisement lacked. */
  lemma SearchKeepsMembers(rawAdvertisement: Bytes, w: Rewrite)
    requires RewriteOk(w) && TopLevel(rawAdvertisement) != [] && Extends(w, TopLevel(rawAdvertisement))
    ensures var members := TopLevel(rawAdvertisement);
      var seen := TopLevel(Braced(SearchMembers(w, members)));
      && seen == SearchMembers(w, members)
      && |members| <= |seen|
      && (forall i :: 0 <= i < |members| ==>
            && seen[i].key == members[i].key
            && (Replacement(w, members[i].key).None? ==> seen[i] == members[i]))
      && (!w.spoofLocation ==> |seen| == |members|)
      && (w.spoofLocation ==>
            Keys(seen[|members|..]) == (set k | k in SPOOFED_KEYS && k !in Keys(members) && k in w.request))
  {
    hide Closed, TopLevel, PrintMember, Missing, SPOOFED_KEYS, Braced;
    var members := TopLevel(rawAdvertisement);
    var all := SearchMembers(w, members);
    SearchReadsBackIff(rawAdvertisement, w);
    MissingFacts(w, Keys(members), SPOOFED_KEYS);
    assert w.spoofLocation ==> all[|members|..] == Missing(w, Keys(members), SPOOFED_KEYS);
  }

  /** A host that is shown a sign through a spoofed location sees its own location under every location
      field it sent, wherever that field stands. */
  lemma SpoofedLocationIsRequests(rawAdvertisement: Bytes, w: Rewrite, key: Bytes)
    requires RewriteOk(w) && TopLevel(rawAdvertisement) != [] && Extends(w, TopLevel(rawAdvertisement))
    requires w.spoofLocation && key in SPOOFED_KEYS && key in w.request
    ensures var seen := TopLevel(Braced(SearchMembers(w, TopLevel(rawAdvertisement))));
      && key in Keys(seen)
      && forall m :: m in seen && m.key == key ==> m.raw == PrintMember(key, "", "", w.request[key])
  {
    hide Closed, TopLevel, PrintMember, Missing, SPOOFED_KEYS, Braced;
    var members := TopLevel(rawAdvertisement);
    SearchKeepsMembers(rawAdvertisement, w);
    MissingFacts(w, Keys(members), SPOOFED_KEYS);
    NotThePayload(key);
    SpoofedKeysAgree(key);
    var added := Missing(w, Keys(members), SPOOFED_KEYS);
    var seen := SearchMembers(w, members);
    if key in Keys(members) {
      var m :| m in members && m.key == key;
      var i :| 0 <= i < |members| && members[i] == m;
      assert seen[i].key == key && seen[i] in seen;
    } else {
      assert key in Keys(added);
      var m :| m in added && m.key == key;
      assert m in seen;
    }
    forall m | m in seen && m.key == key
      ensures m.raw == PrintMember(key, "", "", w.request[key])
    {
      if m !in added {
        var i :| 0 <= i < |members| && seen[i] == m;
        assert m == RewriteMember(w, members[i]);
      }
    }
  }

  lemma NotThePayload(key: Bytes)
    requires key in SPOOFED_KEYS
    ensures key != "SummonData"
  {
    var k :| 0 <= k < |SPOOFED_KEYS| && SPOOFED_KEYS[k] == key;
    assert key[0] != 'S';
  }

  /** The advertised payload is shown with its result count set, where it has one to set; every other member but the
      spoofed location fields is shown as it was sent. */
  lemma PayloadIsSet(rawAdvertisement: Bytes, w: Rewrite, i: nat)
    requires RewriteOk(w) && TopLevel(rawAdvertisement) != [] && Extends(w, TopLevel(rawAdvertisement))
    requires i < |TopLevel(rawAdvertisement)|
    ensures var member := TopLevel(rawAdvertisement)[i];
      var seen := TopLevel(Braced(SearchMembers(w, TopLevel(rawAdvertisement))));
      && i < |seen|
      && (member.key == "SummonData" && w.summonData.Some? ==>
            seen[i] == Member("SummonData", PrintMember("SummonData", "", "", w.summonData.value)))
      && (member.key == "SummonData" && w.summonData.None? ==> seen[i] == member)
      && (member.key != "SummonData" && member.key !in SPOOFED_KEYS ==> seen[i] == member)
  {
    hide TopLevel, PrintMember, SPOOFED_KEYS, Braced, ShouldSpoof, Extends, Missing, AtRest;
    var members := TopLevel(rawAdvertisement);
    SearchKeepsMembers(rawAdvertisement, w);
    SpoofedKeysAgree(members[i].key);
    PayloadIsNoLocation();
    assert SearchMembers(w, members)[i] == RewriteMember(w, members[i]);
  }

  lemma PayloadIsNoLocation()
    ensures !ShouldSpoof("SummonData")
  {
    assert |"SummonData"| == 10 && "SummonData"[0] == 'S';
    assert "AreaId"[0] == 'A' && "AreaRegionId"[0] == 'A' && "ChannelId"[0] == 'C' && "MatchingLevel"[0] == 'M';
    assert "PosX"[0] == 'P' && "PosY"[0] == 'P' && "PosZ"[0] == 'P';
  }
}

/** Bytes on the wire: little-endian words and length-prefixed blobs, written into a growing buffer and
    read back by a cursor that remembers running off the end. */
module Wire {
  type Byte = b: nat | b < 256

  /** The low n bytes of a word, lowest first. */
  function Le(v: nat, n: nat): (r: seq<Byte>)
    ensures |r| == n
  {
    if n == 0 then [] else [v % 256] + Le(v / 256, n - 1)
  }

  /** The word of n bytes at a position. */
  function FromLe(data: seq<Byte>, pos: nat, n: nat): nat
    requires pos + n <= |data|
    decreases n
  {
    if n == 0 then 0 else data[pos] + 256 * FromLe(data, pos + 1, n - 1)
  }

  function Pow256(n: nat): nat {
    if n == 0 then 1 else 256 * Pow256(n - 1)
  }

  /** A word that fits its width is read back wherever it stands. */
  lemma {:induction false} WordReads(pre: seq<Byte>, v: nat, n: nat, post: seq<Byte>)
    requires v < Pow256(n)
    ensures FromLe(pre + Le(v, n) + post, |pre|, n) == v
    decreases n
  {
    if n > 0 {
      var low: Byte := v % 256;
      assert pre + Le(v, n) + post == (pre + [low]) + Le(v / 256, n - 1) + post;
      WordReads(pre + [low], v / 256, n - 1, post);
    }
  }

  /** Bytes are the word they are read as: no two byte strings of one length read the same. */
  lemma {:induction false} WordWrites(data: seq<Byte>, pos: nat, n: nat)
    requires pos + n <= |data|
    ensures Le(FromLe(data, pos, n), n) == data[pos..pos + n]
    decreases n
  {
    if n > 0 {
      WordWrites(data, pos + 1, n - 1);
      assert FromLe(data, pos, n) / 256 == FromLe(data, pos + 1, n - 1);
      assert data[pos..pos + n] == [data[pos]] + data[pos + 1..pos + n];
    }
  }

  lemma Pow256Values()
    ensures Pow256(1) == 0x100 && Pow256(2) == 0x1_0000 && Pow256(4) == 0x1_0000_0000
    ensures Pow256(8) == 0x1_0000_0000_0000_0000
  {
    assert Pow256(3) == 0x100_0000;
    assert Pow256(6) == 0x1_0000_0000_0000;
  }

  // ---------------------------------------------------------------------------------------------
  // Fields

  /** A word of some width, bytes of a length known to both sides, or a blob after its 32-bit length. */
  datatype Field = Word(width: nat, value: nat) | Raw(bytes: seq<Byte>) | Blob(data: seq<Byte>)

  /** What a reader asks for. */
  datatype Shape = WordOf(width: nat) | RawOf(size: nat) | BlobOf

  /** Words fit their width; lengths stay inside the 31 bits a reader's int can hold. */
  predicate FieldOk(f: Field) {
    match f
    case Word(width, value) => value < Pow256(width)
    case Raw(_) => true
    case Blob(data) => |data| < 0x8000_0000
  }

  function ShapeOf(f: Field): Shape {
    match f
    case Word(width, _) => WordOf(width)
    case Raw(bytes) => RawOf(|bytes|)
    case Blob(_) => BlobOf
  }

  function Written(f: Field): seq<Byte> {
    match f
    case Word(width, value) => Le(value, width)
    case Raw(bytes) => bytes
    case Blob(data) => Le(|data|, 4) + data
  }

  /** The fields from place i on, one after the other. */
  function WrittenFrom(fields: seq<Field>, i: nat): seq<Byte>
    requires i <= |fields|
    decreases |fields| - i
  {
    if i == |fields| then [] else Written(fields[i]) + WrittenFrom(fields, i + 1)
  }

  function Shapes(fields: seq<Field>): seq<Shape> {
    seq(|fields|, i requires 0 <= i < |fields| => ShapeOf(fields[i]))
  }

  // ---------------------------------------------------------------------------------------------
  // The reader on values

  datatype Cursor = Cursor(pos: nat, error: bool)

  function GetWord(data: seq<Byte>, at: Cursor, width: nat): (nat, Cursor) {
    if at.pos + width > |data| then (0, at.(error := true))
    else (FromLe(data, at.pos, width), at.(pos := at.pos + width))
  }

  function GetRaw(data: seq<Byte>, at: Cursor, size: nat): (seq<Byte>, Cursor) {
    if at.pos + size > |data| then ([], at.(error := true))
    else (data[at.pos..at.pos + size], at.(pos := at.pos + size))
  }

  function GetBlob(data: seq<Byte>, at: Cursor): (seq<Byte>, Cursor) {
    var (size, next) := GetWord(data, at, 4);
    if next.error then ([], next) else GetRaw(data, next, size)
  }

  function Get(data: seq<Byte>, at: Cursor, shape: Shape): (Field, Cursor) {
    match shape
    case WordOf(width) => (Word(width, GetWord(data, at, width).0), GetWord(data, at, width).1)
    case RawOf(size) => (Raw(GetRaw(data, at, size).0), GetRaw(data, at, size).1)
    case BlobOf => (Blob(GetBlob(data, at).0), GetBlob(data, at).1)
  }

  /** The shapes from place i on, read one after the other. */
  function GetFrom(data: seq<Byte>, at: Cursor, shapes: seq<Shape>, i: nat): (seq<Field>, Cursor)
    requires i <= |shapes|
    decreases |shapes| - i
  {
    if i == |shapes| then ([], at)
    else
      var (field, next) := Get(data, at, shapes[i]);
      var (fields, end) := GetFrom(data, next, shapes, i + 1);
      ([field] + fields, end)
  }

  lemma FieldReads(pre: seq<Byte>, f: Field, post: seq<Byte>)
    requires FieldOk(f)
    ensures var data := pre + Written(f) + post;
      Get(data, Cursor(|pre|, false), ShapeOf(f)) == (f, Cursor(|pre| + |Written(f)|, false))
  {
    hide FromLe, Le, Pow256;
    Pow256Values();
    var data := pre + Written(f) + post;
    match f
    case Word(width, value) => WordReads(pre, value, width, post);
    case Raw(bytes) =>
      assert data[|pre|..|pre| + |bytes|] == bytes;
    case Blob(blob) =>
      assert data == pre + Le(|blob|, 4) + (blob + post);
      WordReads(pre, |blob|, 4, blob + post);
      assert data[|pre| + 4..|pre| + 4 + |blob|] == blob;
  }

  /** Fields written one after the other are read back, whatever stands before and after them. */
  lemma {:induction false} FieldsReadBack(pre: seq<Byte>, fields: seq<Field>, i: nat, post: seq<Byte>)
    requires i <= |fields| && forall f :: f in fields ==> FieldOk(f)
    ensures GetFrom(pre + WrittenFrom(fields, i) + post, Cursor(|pre|, false), Shapes(fields), i)
            == (fields[i..], Cursor(|pre| + |WrittenFrom(fields, i)|, false))
    decreases |fields| - i
  {
    hide Get, Written, FieldOk;
    if i < |fields| {
      var w, more := Written(fields[i]), WrittenFrom(fields, i + 1);
      assert pre + WrittenFrom(fields, i) + post == pre + w + (more + post);
      FieldReads(pre, fields[i], more + post);
      assert pre + WrittenFrom(fields, i) + post == (pre + w) + more + post;
      FieldsReadBack(pre + w, fields, i + 1, post);
      assert fields[i..] == [fields[i]] + fields[i + 1..];
    }
  }

  /** An error is never forgotten. */
  lemma {:induction false} ErrorStays(data: seq<Byte>, at: Cursor, shapes: seq<Shape>, i: nat)
    requires i <= |shapes| && at.error
    ensures GetFrom(data, at, shapes, i).1.error
    decreases |shapes| - i
  {
    if i < |shapes| {
      ErrorStays(data, Get(data, at, shapes[i]).1, shapes, i + 1);
    }
  }

  /** A field cut short is an error. */
  lemma CutFieldFails(pre: seq<Byte>, f: Field, k: nat)
    requires FieldOk(f) && k < |Written(f)|
    ensures Get(pre + Written(f)[..k], Cursor(|pre|, false), ShapeOf(f)).1.error
  {
    hide FromLe, Le, Pow256;
    Pow256Values();
    if f.Blob? && k >= 4 {
      var data := pre + Written(f)[..k];
      assert data == pre + Le(|f.data|, 4) + f.data[..k - 4];
      WordReads(pre, |f.data|, 4, f.data[..k - 4]);
    }
  }

  /** Cut anywhere, the fields do not read without an error: with FieldsReadBack, the reader fails exactly
      when bytes are missing. */
  lemma {:induction false} CutFieldsFail(pre: seq<Byte>, fields: seq<Field>, i: nat, k: nat)
    requires i <= |fields| && (forall f :: f in fields ==> FieldOk(f)) && k < |WrittenFrom(fields, i)|
    ensures GetFrom(pre + WrittenFrom(fields, i)[..k], Cursor(|pre|, false), Shapes(fields), i).1.error
    decreases |fields| - i
  {
    hide Get, Written, FieldOk;
    var w, more := Written(fields[i]), WrittenFrom(fields, i + 1);
    var data := pre + WrittenFrom(fields, i)[..k];
    if k < |w| {
      assert data == pre + w[..k];
      CutFieldFails(pre, fields[i], k);
      ErrorStays(data, Get(data, Cursor(|pre|, false), Shapes(fields)[i]).1, Shapes(fields), i + 1);
    } else {
      assert data == pre + w + more[..k - |w|];
      FieldReads(pre, fields[i], more[..k - |w|]);
      assert data == (pre + w) + more[..k - |w|];
      CutFieldsFail(pre + w, fields, i + 1, k - |w|);
    }
  }

  // ---------------------------------------------------------------------------------------------
  // The reader object

  class StreamExtractor {
    const data: seq<Byte>
    var pos: nat
    var error: bool

    constructor (data: seq<Byte>)
      ensures this.data == data && At() == Cursor(0, false)
    {
      this.data, pos, error := data, 0, false;
    }

    ghost function At(): Cursor
      reads this
    {
      Cursor(pos, error)
    }

    /** get<T>, T of `width` bytes, put together from its bytes. */
    method Word(width: nat) returns (value: nat)
      modifies this
      ensures (value, At()) == GetWord(data, old(At()), width)
    {
      if pos + width > |data| {
        error := true;
        return 0;
      }
      var start, i := pos, width;
      value := 0;
      while i > 0
        invariant 0 <= i <= width && start == pos == old(pos) && error == old(error)
        invariant value == FromLe(data, start + i, width - i)
      {
        i := i - 1;
        value := data[start + i] + 256 * value;
      }
      pos := pos + width;
    }

    method GetBytes(n: nat) returns (bytes: seq<Byte>)
      modifies this
      ensures (bytes, At()) == GetRaw(data, old(At()), n)
    {
      if pos + n > |data| {
        error := true;
        return [];
      }
      bytes := data[pos..pos + n];
      pos := pos + n;
    }

    method GetRawData() returns (bytes: seq<Byte>)
      modifies this
      ensures (bytes, At()) == GetBlob(data, old(At()))
    {
      var size := Word(4);
      if error {
        return [];
      }
      if pos + size > |data| {
        error := true;
        return [];
      }
      bytes := data[pos..pos + size];
      pos := pos + size;
    }
  }

  // ---------------------------------------------------------------------------------------------
  // The buffer object

  class Buffer {
    var data: seq<Byte>

    constructor ()
      ensures data == []
    {
      data := [];
    }

    method Append(bytes: seq<Byte>)
      modifies this
      ensures data == old(data) + bytes
    {
      data := data + bytes;
    }

    method AppendU16LE(v: nat)
      modifies this
      ensures data == old(data) + Le(v, 2)
    {
      hide Le;
      data := data + [v % 256] + [v / 256 % 256];
      LeBytes(v);
    }

    method AppendU32LE(v: nat)
      modifies this
      ensures data == old(data) + Le(v, 4)
    {
      hide Le;
      data := data + [v % 256] + [v / 256 % 256] + [v / 0x1_0000 % 256] + [v / 0x100_0000 % 256];
      LeBytes(v);
    }

    method AppendU64LE(v: nat)
      modifies this
      ensures data == old(data) + Le(v, 8)
    {
      hide Le;
      var rest := v;
      ghost var written: seq<Byte> := [];
      for i := 0 to 8
        invariant data == old(data) + written && Le(v, 8) == written + Le(rest, 8 - i)
      {
        LeStep(rest, 8 - i);
        data := data + [rest % 256];
        written := written + [rest % 256];
        rest := rest / 256;
      }
      assert Le(v, 8) == written;
    }

    method AppendBlob(blob: seq<Byte>)
      modifies this
      ensures data == old(data) + Written(Blob(blob))
    {
      hide Le;
      AppendU32LE(|blob|);
      data := data + blob;
    }

    /** fixPacketSize: the buffer's length into bytes 3 to 6, all others untouched. */
    method FixPacketSize()
      requires |data| >= 7
      modifies this
      ensures data == old(data)[..3] + Le(|old(data)|, 4) + old(data)[7..]
    {
      hide Le;
      var size := |data|;
      LeBytes(size);
      data := data[3 := size % 256];
      data := data[4 := size / 256 % 256];
      data := data[5 := size / 0x1_0000 % 256];
      data := data[6 := size / 0x100_0000 % 256];
    }
  }

  lemma LeStep(v: nat, n: nat)
    requires n > 0
    ensures Le(v, n) == [v % 256] + Le(v / 256, n - 1)
  {
  }

  lemma LeBytes(v: nat)
    ensures Le(v, 2) == [v % 256, v / 256 % 256]
    ensures Le(v, 4) == [v % 256, v / 256 % 256, v / 0x1_0000 % 256, v / 0x100_0000 % 256]
  {
    assert Le(v / 256, 1) == [v / 256 % 256];
    assert Le(v / 256 / 256 / 256, 1) == [v / 256 / 256 / 256 % 256];
    assert Le(v / 256 / 256, 2) == [v / 256 / 256 % 256] + Le(v / 256 / 256 / 256, 1);
    assert Le(v / 256, 3) == [v / 256 % 256] + Le(v / 256 / 256, 2);
    assert Le(v, 4) == [v % 256] + Le(v / 256, 3);
    assert v / 256 / 256 == v / 0x1_0000 && v / 256 / 256 / 256 == v / 0x100_0000;
  }

  /** The fields of a push event: service, label, type, data, sender, receiver, and counted pairs. */
  function PushFields(service: seq<Byte>, serviceLabel: nat, dataType: seq<Byte>, data: seq<Byte>, sender: seq<Byte>,
                      receiver: seq<Byte>, extra: seq<(seq<Byte>, seq<Byte>)>): seq<Field> {
    PushHead(service, serviceLabel, dataType, data, sender, receiver, |extra|) + Pairs(extra)
  }

  function PushHead(service: seq<Byte>, serviceLabel: nat, dataType: seq<Byte>, data: seq<Byte>, sender: seq<Byte>,
                    receiver: seq<Byte>, extras: nat): seq<Field> {
    [Blob(service), Word(4, serviceLabel), Blob(dataType), Blob(data), Blob(sender), Blob(receiver), Word(4, extras)]
  }

  function Pairs(extra: seq<(seq<Byte>, seq<Byte>)>): (r: seq<Field>)
    ensures |r| == 2 * |extra|
  {
    if extra == [] then []
    else Pairs(extra[..|extra| - 1]) + [Blob(extra[|extra| - 1].0), Blob(extra[|extra| - 1].1)]
  }

  lemma {:induction false} WrittenAppends(a: seq<Field>, b: seq<Field>, i: nat)
    requires i <= |a|
    ensures WrittenFrom(a + b, i) == WrittenFrom(a, i) + WrittenFrom(b, 0)
    decreases |a| - i
  {
    hide Written;
    if i < |a| {
      WrittenAppends(a, b, i + 1);
    } else {
      WrittenShift(a, b, 0);
    }
  }

  lemma {:induction false} WrittenShift(a: seq<Field>, b: seq<Field>, j: nat)
    requires j <= |b|
    ensures WrittenFrom(a + b, |a| + j) == WrittenFrom(b, j)
    decreases |b| - j
  {
    hide Written;
    if j < |b| {
      WrittenShift(a, b, j + 1);
    }
  }

  /** BuildWebApiPushPayload writes those fields, from which FieldsReadBack takes every argument back. */
  method BuildWebApiPushPayload(service: seq<Byte>, serviceLabel: nat, dataType: seq<Byte>, data: seq<Byte>,
                                sender: seq<Byte>, receiver: seq<Byte>, extra: seq<(seq<Byte>, seq<Byte>)>)
    returns (payload: seq<Byte>)
    ensures payload == WrittenFrom(PushFields(service, serviceLabel, dataType, data, sender, receiver, extra), 0)
  {
    hide Le, Written, WrittenFrom, PushFields, PushHead;
    var buffer := new Buffer();
    AppendPushHead(buffer, service, serviceLabel, dataType, data, sender, receiver, |extra|);
    ghost var head := PushHead(service, serviceLabel, dataType, data, sender, receiver, |extra|);
    assert head + Pairs(extra[..0]) == head;
    for i := 0 to |extra|
      invariant buffer.data == WrittenFrom(head + Pairs(extra[..i]), 0)
    {
      buffer.AppendBlob(extra[i].0);
      buffer.AppendBlob(extra[i].1);
      OneMorePair(head, extra, i);
    }
    assert extra[..|extra|] == extra;
    payload := buffer.data;
    PushFieldsAre(service, serviceLabel, dataType, data, sender, receiver, extra);
  }

  lemma OneMorePair(head: seq<Field>, extra: seq<(seq<Byte>, seq<Byte>)>, i: nat)
    requires i < |extra|
    ensures WrittenFrom(head + Pairs(extra[..i + 1]), 0)
            == WrittenFrom(head + Pairs(extra[..i]), 0) + Written(Blob(extra[i].0)) + Written(Blob(extra[i].1))
  {
    hide Written, WrittenFrom;
    var fields := head + Pairs(extra[..i]);
    assert extra[..i + 1][..i] == extra[..i];
    assert head + Pairs(extra[..i + 1]) == fields + [Blob(extra[i].0)] + [Blob(extra[i].1)];
    OneMoreField(fields, Blob(extra[i].0));
    OneMoreField(fields + [Blob(extra[i].0)], Blob(extra[i].1));
  }

  method AppendPushHead(buffer: Buffer, service: seq<Byte>, serviceLabel: nat, dataType: seq<Byte>, data: seq<Byte>,
                        sender: seq<Byte>, receiver: seq<Byte>, extras: nat)
    requires buffer.data == []
    modifies buffer
    ensures buffer.data == WrittenFrom(PushHead(service, serviceLabel, dataType, data, sender, receiver, extras), 0)
  {
    hide Le, Written, WrittenFrom;
    buffer.AppendBlob(service);
    buffer.AppendU32LE(serviceLabel);
    buffer.AppendBlob(dataType);
    buffer.AppendBlob(data);
    buffer.AppendBlob(sender);
    buffer.AppendBlob(receiver);
    buffer.AppendU32LE(extras);
    WordsWritten(serviceLabel, extras);
    SevenFields(Blob(service), Word(4, serviceLabel), Blob(dataType), Blob(data), Blob(sender), Blob(receiver),
                Word(4, extras));
  }

  lemma WordsWritten(a: nat, b: nat)
    ensures Written(Word(4, a)) == Le(a, 4) && Written(Word(4, b)) == Le(b, 4)
  {
  }

  lemma SevenFields(a: Field, b: Field, c: Field, d: Field, e: Field, f: Field, g: Field)
    ensures WrittenFrom([a, b, c, d, e, f, g], 0)
            == Written(a) + Written(b) + Written(c) + Written(d) + Written(e) + Written(f) + Written(g)
  {
    hide Written, WrittenFrom;
    OneMoreField([], a);
    OneMoreField([a], b);
    OneMoreField([a, b], c);
    OneMoreField([a, b, c], d);
    OneMoreField([a, b, c, d], e);
    OneMoreField([a, b, c, d, e], f);
    OneMoreField([a, b, c, d, e, f], g);
    assert [a, b, c, d, e, f, g] == [a, b, c, d, e, f] + [g];
    assert [a, b, c, d, e, f] == [a, b, c, d, e] + [f];
    assert [a, b, c, d, e] == [a, b, c, d] + [e];
    assert [a, b, c, d] == [a, b, c] + [d];
    assert [a, b, c] == [a, b] + [c];
    assert [a, b] == [a] + [b];
    assert [a] == [] + [a];
  }

  lemma PushFieldsAre(service: seq<Byte>, serviceLabel: nat, dataType: seq<Byte>, data: seq<Byte>, sender: seq<Byte>,
                      receiver: seq<Byte>, extra: seq<(seq<Byte>, seq<Byte>)>)
    ensures PushFields(service, serviceLabel, dataType, data, sender, receiver, extra)
            == PushHead(service, serviceLabel, dataType, data, sender, receiver, |extra|) + Pairs(extra)
  {
  }

  lemma OneMoreField(fields: seq<Field>, f: Field)
    ensures WrittenFrom([], 0) == []
    ensures WrittenFrom(fields + [f], 0) == WrittenFrom(fields, 0) + Written(f)
  {
    hide Written;
    WrittenAppends(fields, [f], 0);
    assert WrittenFrom([f], 0) == Written(f) + WrittenFrom([f], 1);
  }
}

/** Packets: a 15-byte header (kind, command, whole size, id) and a payload; how each side builds them, and
    how each side cuts the byte stream it reads back into them. */
module Framing {
  import opened Common
  import opened Wire

  const HEADER_SIZE := 15
  const MAX_PACKET_SIZE := 0x80_0000

  const REQUEST: Byte := 0
  const REPLY: Byte := 1
  const NOTIFICATION: Byte := 2

  datatype Packet = Packet(kind: Byte, command: nat, id: nat, payload: seq<Byte>)

  function SizeOf(p: Packet): nat {
    HEADER_SIZE + |p.payload|
  }

  /** The fields fit the header. */
  predicate PacketOk(p: Packet) {
    p.command < 0x1_0000 && p.id < 0x1_0000_0000_0000_0000 && SizeOf(p) < 0x1_0000_0000
  }

  function Encode(p: Packet): seq<Byte> {
    [p.kind] + Le(p.command, 2) + Le(SizeOf(p), 4) + Le(p.id, 8) + p.payload
  }

  /** The packets from place i on, one after the other. */
  function EncodeFrom(packets: seq<Packet>, i: nat): seq<Byte>
    requires i <= |packets|
    decreases |packets| - i
  {
    if i == |packets| then [] else Encode(packets[i]) + EncodeFrom(packets, i + 1)
  }

  /** The size field of a buffer that holds a header. */
  function SizeField(buf: seq<Byte>): nat
    requires |buf| >= HEADER_SIZE
  {
    FromLe(buf, 3, 4)
  }

  /** The packet at the front of a buffer, of `size` bytes. */
  function Front(buf: seq<Byte>, size: nat): Packet
    requires HEADER_SIZE <= size <= |buf|
  {
    Packet(buf[0], FromLe(buf, 1, 2), FromLe(buf, 7, 8), buf[HEADER_SIZE..size])
  }

  /** What was written into a header is what is read from it, whatever follows. */
  lemma HeaderReads(p: Packet, post: seq<Byte>)
    requires PacketOk(p)
    ensures |Encode(p)| == SizeOf(p)
    ensures var buf := Encode(p) + post;
      SizeField(buf) == SizeOf(p) && Front(buf, SizeOf(p)) == p && buf[SizeOf(p)..] == post
  {
    hide Le, FromLe, Pow256;
    Pow256Values();
    var buf := Encode(p) + post;
    var kind, command, size, id := [p.kind], Le(p.command, 2), Le(SizeOf(p), 4), Le(p.id, 8);
    assert buf == kind + command + (size + id + p.payload + post);
    WordReads(kind, p.command, 2, size + id + p.payload + post);
    assert buf == (kind + command) + size + (id + p.payload + post);
    WordReads(kind + command, SizeOf(p), 4, id + p.payload + post);
    assert buf == (kind + command + size) + id + (p.payload + post);
    WordReads(kind + command + size, p.id, 8, p.payload + post);
    assert buf[HEADER_SIZE..SizeOf(p)] == p.payload;
  }

  /** Two and four bytes from place i, the low one first. */
  function TwoBytes(b: seq<Byte>, i: nat): int
    requires i + 2 <= |b|
  {
    b[i] as int + 0x100 * (b[i + 1] as int)
  }

  function FourBytes(b: seq<Byte>, i: nat): int
    requires i + 4 <= |b|
  {
    TwoBytes(b, i) + 0x1_0000 * TwoBytes(b, i + 2)
  }

  /** The layout of the header: the kind, the command in two bytes, the size of the whole packet in four, the id in
      eight, each low byte first; then the payload. */
  lemma HeaderLayout(p: Packet)
    requires PacketOk(p)
    ensures var b := Encode(p);
      && |b| == 15 + |p.payload| && b[0] == p.kind && b[15..] == p.payload
      && TwoBytes(b, 1) == p.command
      && FourBytes(b, 3) == 15 + |p.payload|
      && FourBytes(b, 7) + 0x1_0000_0000 * FourBytes(b, 11) == p.id
  {
    HeaderReads(p, []);
    var b := Encode(p);
    assert b + [] == b;
    WordBytes(b, 1);
    WordBytes(b, 3);
    WordBytes(b, 7);
    WordBytes(b, 11);
    EightBytes(b, 7);
    hide Le, FromLe;
    assert b == ([p.kind] + Le(p.command, 2) + Le(SizeOf(p), 4) + Le(p.id, 8)) + p.payload;
  }

  /** The kinds of packets, as they stand in their first byte. */
  lemma KindBytes(command: nat, id: nat, payload: seq<Byte>)
    ensures Encode(Packet(REQUEST, command, id, payload))[0] == 0
    ensures Encode(Packet(REPLY, command, id, payload))[0] == 1
    ensures Encode(Packet(NOTIFICATION, command, id, payload))[0] == 2
  {
    hide Le;
  }

  lemma WordBytes(b: seq<Byte>, i: nat)
    requires i + 4 <= |b|
    ensures FromLe(b, i, 2) == TwoBytes(b, i) && FromLe(b, i, 4) == FourBytes(b, i)
  {
    assert FromLe(b, i + 3, 1) == b[i + 3] as int + 256 * FromLe(b, i + 4, 0);
    assert FromLe(b, i + 2, 2) == b[i + 2] as int + 256 * FromLe(b, i + 3, 1);
  }

  lemma EightBytes(b: seq<Byte>, i: nat)
    requires i + 8 <= |b|
    ensures FromLe(b, i, 8) == FromLe(b, i, 4) + 0x1_0000_0000 * FromLe(b, i + 4, 4)
  {
    assert FromLe(b, i + 3, 5) == b[i + 3] as int + 256 * FromLe(b, i + 4, 4);
    assert FromLe(b, i + 2, 6) == b[i + 2] as int + 256 * FromLe(b, i + 3, 5);
    assert FromLe(b, i + 1, 7) == b[i + 1] as int + 256 * FromLe(b, i + 2, 6);
    assert FromLe(b, i + 3, 1) == b[i + 3] as int + 256 * FromLe(b, i + 4, 0);
    assert FromLe(b, i + 2, 2) == b[i + 2] as int + 256 * FromLe(b, i + 3, 1);
    assert FromLe(b, i + 1, 3) == b[i + 1] as int + 256 * FromLe(b, i + 2, 2);
  }

  // ---------------------------------------------------------------------------------------------
  // Building packets

  /** buildPacket: the header's words are copied over fifteen zero bytes. */
  method BuildPacket(command: nat, id: nat, payload: seq<Byte>) returns (out: seq<Byte>)
    ensures out == Encode(Packet(REQUEST, command, id, payload))
  {
    hide Le;
    var totalSize := HEADER_SIZE + |payload|;
    out := seq(HEADER_SIZE, i => 0);
    out := out[0 := REQUEST];
    out := CopyInto(out, 1, Le(command, 2));
    out := CopyInto(out, 3, Le(totalSize, 4));
    out := CopyInto(out, 7, Le(id, 8));
    out := out + payload;
  }

  /** memcpy to a place inside a vector. */
  method CopyInto(buf: seq<Byte>, at: nat, bytes: seq<Byte>) returns (r: seq<Byte>)
    requires at + |bytes| <= |buf|
    ensures r == buf[..at] + bytes + buf[at + |bytes|..]
  {
    r := buf;
    for i := 0 to |bytes|
      invariant r == buf[..at] + bytes[..i] + buf[at + i..]
    {
      r := r[at + i := bytes[i]];
    }
  }

  method BuildNotification(kind: nat, payload: seq<Byte>) returns (packet: seq<Byte>)
    ensures packet == Encode(Packet(NOTIFICATION, kind, 0, payload))
  {
    hide Le;
    var buffer := new Buffer();
    buffer.Append([NOTIFICATION]);
    buffer.AppendU16LE(kind);
    buffer.AppendU32LE(HEADER_SIZE + |payload|);
    buffer.AppendU64LE(0);
    buffer.Append(payload);
    packet := buffer.data;
  }

  /** The reply of ProcessPacket: the handler appends its body after a placeholder size and error byte, and
      both are filled in at the end. */
  method BuildReply(command: nat, id: nat, result: Byte, body: seq<Byte>) returns (reply: seq<Byte>)
    ensures reply == Encode(Packet(REPLY, command, id, [result] + body))
  {
    hide Le;
    var buffer := new Buffer();
    buffer.Append([REPLY]);
    buffer.AppendU16LE(command);
    buffer.AppendU32LE(HEADER_SIZE);
    buffer.AppendU64LE(id);
    buffer.Append([0]);
    buffer.Append(body);
    buffer.data := buffer.data[HEADER_SIZE := result];
    ghost var patched := buffer.data;
    assert patched == [REPLY] + Le(command, 2) + Le(HEADER_SIZE, 4) + (Le(id, 8) + [result] + body);
    buffer.FixPacketSize();
    reply := buffer.data;
  }

  // ---------------------------------------------------------------------------------------------
  // The client's splitter

  datatype Split = Split(packets: seq<Packet>, rest: seq<Byte>, cleared: bool)

  /** What the client makes of a buffer: its packets, and the bytes that stay. A size below the header's
      clears the buffer. */
  function ClientSplit(buf: seq<Byte>): Split {
    if |buf| < HEADER_SIZE then Split([], buf, false)
    else if SizeField(buf) < HEADER_SIZE then Split([], [], true)
    else if |buf| < SizeField(buf) then Split([], buf, false)
    else
      var more := ClientSplit(buf[SizeField(buf)..]);
      more.(packets := [Front(buf, SizeField(buf))] + more.packets)
  }

  /** Bytes from which no packet can be taken yet. */
  predicate Incomplete(buf: seq<Byte>) {
    |buf| < HEADER_SIZE || |buf| < SizeField(buf)
  }

  lemma {:induction false} FromLeAppend(x: seq<Byte>, y: seq<Byte>, pos: nat, n: nat)
    requires pos + n <= |x|
    ensures FromLe(x + y, pos, n) == FromLe(x, pos, n)
    decreases n
  {
    if n > 0 {
      FromLeAppend(x, y, pos + 1, n - 1);
    }
  }

  lemma FrontAppend(x: seq<Byte>, y: seq<Byte>)
    requires |x| >= HEADER_SIZE
    ensures SizeField(x + y) == SizeField(x)
    ensures HEADER_SIZE <= SizeField(x) <= |x| ==>
              Front(x + y, SizeField(x)) == Front(x, SizeField(x)) && (x + y)[SizeField(x)..] == x[SizeField(x)..] + y
  {
    hide FromLe;
    FromLeAppend(x, y, 3, 4);
    FromLeAppend(x, y, 1, 2);
    FromLeAppend(x, y, 7, 8);
  }

  /** Splitting two chunks at once is splitting the first, and then what it left with the second; unless the
      first chunk clears the buffer: then the second is lost with it. */
  lemma {:induction false} ClientSplitAppend(x: seq<Byte>, y: seq<Byte>)
    ensures var first := ClientSplit(x);
      ClientSplit(x + y) ==
        if first.cleared then first
        else
          var second := ClientSplit(first.rest + y);
          second.(packets := first.packets + second.packets)
    decreases |x|
  {
    hide FromLe, Front;
    if |x| >= HEADER_SIZE {
      FrontAppend(x, y);
      if HEADER_SIZE <= SizeField(x) <= |x| {
        var post := x[SizeField(x)..];
        ClientSplitAppend(post, y);
        assert ClientSplit(x).rest == ClientSplit(post).rest;
      }
    }
  }

  /** Reads handled one by one. */
  function ClientFeed(chunks: seq<seq<Byte>>): (seq<Packet>, seq<Byte>) {
    if chunks == [] then ([], [])
    else
      var (packets, rest) := ClientFeed(chunks[..|chunks| - 1]);
      var split := ClientSplit(rest + chunks[|chunks| - 1]);
      (packets + split.packets, split.rest)
  }

  function Joined(chunks: seq<seq<Byte>>): seq<Byte> {
    if chunks == [] then [] else Joined(chunks[..|chunks| - 1]) + chunks[|chunks| - 1]
  }

  lemma {:induction false} ClearedIsEmpty(x: seq<Byte>)
    requires ClientSplit(x).cleared
    ensures ClientSplit(x).rest == []
    decreases |x|
  {
    if HEADER_SIZE <= SizeField(x) {
      ClearedIsEmpty(x[SizeField(x)..]);
    }
  }

  /** However a stream without such a size is cut into chunks, the client takes the same packets from it and
      keeps the same bytes. */
  lemma {:induction false} ClientIgnoresCuts(chunks: seq<seq<Byte>>)
    requires !ClientSplit(Joined(chunks)).cleared
    ensures ClientFeed(chunks) == (ClientSplit(Joined(chunks)).packets, ClientSplit(Joined(chunks)).rest)
    decreases |chunks|
  {
    hide ClientSplit;
    if chunks == [] {
      NothingSplits();
    } else {
      var earlier, last := chunks[..|chunks| - 1], chunks[|chunks| - 1];
      ClientSplitAppend(Joined(earlier), last);
      ClientIgnoresCuts(earlier);
    }
  }

  lemma NothingSplits()
    ensures ClientSplit([]) == Split([], [], false)
  {
  }

  /** A stream of packets is split into them, and the incomplete tail stays. */
  lemma {:induction false} ClientTakesPackets(packets: seq<Packet>, i: nat, tail: seq<Byte>)
    requires i <= |packets| && (forall p :: p in packets ==> PacketOk(p))
    requires Incomplete(tail) && (|tail| >= HEADER_SIZE ==> SizeField(tail) >= HEADER_SIZE)
    ensures ClientSplit(EncodeFrom(packets, i) + tail) == Split(packets[i..], tail, false)
    decreases |packets| - i
  {
    hide FromLe, Encode, PacketOk;
    if i == |packets| {
      assert EncodeFrom(packets, i) + tail == tail;
    } else {
      var post := EncodeFrom(packets, i + 1) + tail;
      assert EncodeFrom(packets, i) + tail == Encode(packets[i]) + post;
      HeaderReads(packets[i], post);
      ClientTakesPackets(packets, i + 1, tail);
      assert packets[i..] == [packets[i]] + packets[i + 1..];
    }
  }

  /** A prefix of a stream of packets is some whole packets and a beginning of the next. */
  lemma {:induction false} PrefixIsWholePackets(packets: seq<Packet>, i: nat, n: nat) returns (k: nat, tail: seq<Byte>)
    requires i <= |packets| && (forall p :: p in packets ==> PacketOk(p)) && n <= |EncodeFrom(packets, i)|
    ensures i <= k <= |packets|
    ensures EncodeFrom(packets, i)[..n] == EncodeFrom(packets[..k], i) + tail
    ensures if k == |packets| then tail == [] else |tail| < SizeOf(packets[k]) && tail == Encode(packets[k])[..|tail|]
    decreases |packets| - i
  {
    hide Encode, PacketOk;
    if i == |packets| {
      k, tail := i, [];
      assert packets[..k] == packets;
    } else {
      HeaderReads(packets[i], []);
      var size := SizeOf(packets[i]);
      var more := EncodeFrom(packets, i + 1);
      if n < size {
        k, tail := i, Encode(packets[i])[..n];
        assert EncodeFrom(packets, i)[..n] == tail;
        assert EncodeFrom(packets[..k], i) == [];
      } else {
        k, tail := PrefixIsWholePackets(packets, i + 1, n - size);
        assert EncodeFrom(packets, i)[..n] == Encode(packets[i]) + more[..n - size];
        assert packets[..k][i] == packets[i];
      }
    }
  }

  lemma BeginningIsIncomplete(p: Packet, tail: seq<Byte>)
    requires PacketOk(p) && |tail| < SizeOf(p) && |Encode(p)| == SizeOf(p) && tail == Encode(p)[..|tail|]
    ensures Incomplete(tail) && (|tail| >= HEADER_SIZE ==> SizeField(tail) == SizeOf(p))
  {
    hide FromLe, Encode, PacketOk;
    if |tail| >= HEADER_SIZE {
      HeaderReads(p, []);
      assert Encode(p) + [] == Encode(p) == tail + Encode(p)[|tail|..];
      FrontAppend(tail, Encode(p)[|tail|..]);
    }
  }

  /** At every moment of a stream of packets, cut into chunks in any way, the client has delivered exactly the
      packets that are complete, in order, and keeps exactly the beginning of the next. */
  lemma ClientDelivers(packets: seq<Packet>, chunks: seq<seq<Byte>>) returns (k: nat)
    requires (forall p :: p in packets ==> PacketOk(p)) && Joined(chunks) <= EncodeFrom(packets, 0)
    ensures k <= |packets| && ClientFeed(chunks).0 == packets[..k]
    ensures Joined(chunks) == EncodeFrom(packets[..k], 0) + ClientFeed(chunks).1
    ensures |ClientFeed(chunks).1| < if k == |packets| then 1 else SizeOf(packets[k])
  {
    hide ClientSplit, PacketOk;
    var tail;
    k, tail := PrefixIsWholePackets(packets, 0, |Joined(chunks)|);
    assert Joined(chunks) == EncodeFrom(packets[..k], 0) + tail;
    if k < |packets| {
      HeaderReads(packets[k], []);
      BeginningIsIncomplete(packets[k], tail);
    }
    ClientTakesPackets(packets[..k], 0, tail);
    ClientIgnoresCuts(chunks);
  }

  /** A complete packet is written back as the very bytes it was read from. */
  lemma FrontRewrites(buf: seq<Byte>)
    requires |buf| >= HEADER_SIZE && HEADER_SIZE <= SizeField(buf) <= |buf|
    ensures Encode(Front(buf, SizeField(buf))) == buf[..SizeField(buf)]
  {
    hide FromLe, Le;
    var size := SizeField(buf);
    WordWrites(buf, 1, 2);
    WordWrites(buf, 3, 4);
    WordWrites(buf, 7, 8);
    assert buf[..size] == [buf[0]] + buf[1..3] + buf[3..7] + buf[7..15] + buf[15..size];
  }

  /** Whatever the bytes, the client loses none unless it clears: its packets and the rest are the buffer. */
  lemma {:induction false} ClientLosesNothing(buf: seq<Byte>)
    requires !ClientSplit(buf).cleared
    ensures EncodeFrom(ClientSplit(buf).packets, 0) + ClientSplit(buf).rest == buf
    ensures Incomplete(ClientSplit(buf).rest)
    decreases |buf|
  {
    hide FromLe, Encode, Front, EncodeFrom, ClientSplit;
    if |buf| >= HEADER_SIZE && HEADER_SIZE <= SizeField(buf) <= |buf| {
      var post := buf[SizeField(buf)..];
      OnePacket(buf);
      ClientLosesNothing(post);
      FrontRewrites(buf);
      EncodeFirst(Front(buf, SizeField(buf)), ClientSplit(post).packets);
      assert buf == buf[..SizeField(buf)] + post;
    } else {
      NoPacket(buf);
    }
  }

  lemma OnePacket(buf: seq<Byte>)
    requires |buf| >= HEADER_SIZE && HEADER_SIZE <= SizeField(buf) <= |buf|
    ensures var more := ClientSplit(buf[SizeField(buf)..]);
      ClientSplit(buf) == Split([Front(buf, SizeField(buf))] + more.packets, more.rest, more.cleared)
  {
    hide FromLe, Front;
  }

  lemma NoPacket(buf: seq<Byte>)
    requires !ClientSplit(buf).cleared && !(|buf| >= HEADER_SIZE && HEADER_SIZE <= SizeField(buf) <= |buf|)
    ensures ClientSplit(buf) == Split([], buf, false) && Incomplete(buf) && EncodeFrom([], 0) + buf == buf
  {
    hide FromLe;
  }

  lemma EncodeFirst(p: Packet, more: seq<Packet>)
    ensures EncodeFrom([p] + more, 0) == Encode(p) + EncodeFrom(more, 0)
  {
    hide Encode;
    ShiftEncode([p], more, 0);
  }

  lemma {:induction false} ShiftEncode(a: seq<Packet>, b: seq<Packet>, j: nat)
    requires j <= |b|
    ensures EncodeFrom(a + b, |a| + j) == EncodeFrom(b, j)
    decreases |b| - j
  {
    hide Encode;
    if j < |b| {
      ShiftEncode(a, b, j + 1);
    }
  }

  // ---------------------------------------------------------------------------------------------
  // Where the cuts matter: a packet-aligned size below the header's

  /** Where the first packet header stands, counted in whole packets from the front, whose size is below the
      header's own. */
  function UndersizedAt(buf: seq<Byte>): (p: Option<nat>)
    ensures p.Some? ==> p.value + HEADER_SIZE <= |buf|
  {
    if |buf| < HEADER_SIZE then None
    else if SizeField(buf) < HEADER_SIZE then Some(0)
    else if |buf| < SizeField(buf) then None
    else
      match UndersizedAt(buf[SizeField(buf)..])
      case None => None
      case Some(q) => Some(SizeField(buf) + q)
  }

  /** A buffer is cleared exactly when it holds such a header; the packets before it are delivered. */
  lemma {:induction false} ClearsAtUndersized(buf: seq<Byte>)
    ensures ClientSplit(buf).cleared <==> UndersizedAt(buf).Some?
    ensures UndersizedAt(buf).Some? ==>
              var p := UndersizedAt(buf).value;
              FromLe(buf, p + 3, 4) < HEADER_SIZE && (ClientSplit(buf).packets == [] <==> p == 0)
    decreases |buf|
  {
    hide FromLe, Front;
    if |buf| >= HEADER_SIZE && HEADER_SIZE <= SizeField(buf) <= |buf| {
      var size := SizeField(buf);
      ClearsAtUndersized(buf[size..]);
      if UndersizedAt(buf[size..]).Some? {
        FromLeBehind(buf[..size], buf[size..], UndersizedAt(buf[size..]).value + 3, 4);
        assert buf[..size] + buf[size..] == buf;
      }
    }
  }

  lemma {:induction false} FromLeBehind(x: seq<Byte>, y: seq<Byte>, pos: nat, n: nat)
    requires pos + n <= |y|
    ensures FromLe(x + y, |x| + pos, n) == FromLe(y, pos, n)
    decreases n
  {
    if n > 0 {
      FromLeBehind(x, y, pos + 1, n - 1);
    }
  }

  /** Such a header is seen as soon as it is complete, and not before. */
  lemma {:induction false} UndersizedIsSeen(x: seq<Byte>, y: seq<Byte>)
    ensures UndersizedAt(x) == match UndersizedAt(x + y)
                               case None => None
                               case Some(p) => if p + HEADER_SIZE <= |x| then Some(p) else None
    decreases |x|
  {
    hide FromLe, Front;
    if |x| >= HEADER_SIZE {
      FrontAppend(x, y);
      if HEADER_SIZE <= SizeField(x) <= |x| {
        UndersizedIsSeen(x[SizeField(x)..], y);
      }
    }
  }

  /** How many reads it takes until n bytes have come. */
  function Reads(chunks: seq<seq<Byte>>, n: nat): (k: nat)
    requires 0 < n <= |Joined(chunks)|
    ensures 0 < k <= |chunks|
  {
    if |Joined(chunks[..|chunks| - 1])| < n then |chunks| else Reads(chunks[..|chunks| - 1], n)
  }

  lemma JoinedLast(before: seq<seq<Byte>>, read: seq<Byte>)
    ensures Joined(before + [read]) == Joined(before) + read
  {
    assert (before + [read])[..|before|] == before;
  }

  /** After reads that leave the buffer empty, the later ones are handled as on a new connection. */
  lemma {:induction false} FeedParts(a: seq<seq<Byte>>, b: seq<seq<Byte>>)
    requires ClientFeed(a).1 == []
    ensures ClientFeed(a + b) == (ClientFeed(a).0 + ClientFeed(b).0, ClientFeed(b).1)
    decreases |b|
  {
    hide ClientSplit;
    if b == [] {
      assert a + b == a;
      assert ClientFeed(a).0 + [] == ClientFeed(a).0;
    } else {
      var earlier, last := b[..|b| - 1], b[|b| - 1];
      FeedParts(a, earlier);
      assert (a + b)[..|a + b| - 1] == a + earlier;
      var split := ClientSplit(ClientFeed(earlier).1 + last);
      assert (ClientFeed(a).0 + ClientFeed(earlier).0) + split.packets
          == ClientFeed(a).0 + (ClientFeed(earlier).0 + split.packets);
    }
  }

  /** The read that completes such a header delivers the packets before it and empties the buffer. */
  lemma FeedUpToClear(before: seq<seq<Byte>>, read: seq<Byte>)
    requires UndersizedAt(Joined(before)).None? && UndersizedAt(Joined(before) + read).Some?
    ensures ClientFeed(before + [read]) == (ClientSplit(Joined(before) + read).packets, [])
  {
    hide ClientSplit, UndersizedAt;
    ClearsAtUndersized(Joined(before));
    ClearsAtUndersized(Joined(before) + read);
    ClientIgnoresCuts(before);
    ClientSplitAppend(Joined(before), read);
    ClearedIsEmpty(Joined(before) + read);
    assert (before + [read])[..|before|] == before;
  }

  /** Nothing that comes in the same read after such a header is seen. */
  lemma NothingAfterClear(x: seq<Byte>, y: seq<Byte>)
    requires UndersizedAt(x).Some?
    ensures ClientSplit(x + y) == ClientSplit(x) && ClientSplit(x).rest == []
  {
    hide ClientSplit, UndersizedAt;
    ClearsAtUndersized(x);
    ClearedIsEmpty(x);
    ClientSplitAppend(x, y);
  }

  /** The read with which n bytes have come, and the reads around it. */
  lemma {:induction false} TheRead(chunks: seq<seq<Byte>>, n: nat)
    returns (before: seq<seq<Byte>>, read: seq<Byte>, after: seq<seq<Byte>>)
    requires 0 < n <= |Joined(chunks)|
    ensures chunks == (before + [read]) + after && |before| + 1 == Reads(chunks, n)
    ensures |Joined(before)| < n <= |Joined(before) + read|
    ensures Joined(chunks) == (Joined(before) + read) + Joined(after)
    decreases |chunks|
  {
    var earlier, last := chunks[..|chunks| - 1], chunks[|chunks| - 1];
    if |Joined(earlier)| < n {
      before, read, after := earlier, last, [];
    } else {
      before, read, after := TheRead(earlier, n);
      Regrouped(chunks, earlier, [last], before + [read], after);
      Regrouped(Joined(chunks), Joined(earlier), last, Joined(before) + read, Joined(after));
      JoinedLast(after, last);
      after := after + [last];
    }
  }

  lemma Regrouped<T>(s: seq<T>, earlier: seq<T>, last: seq<T>, front: seq<T>, after: seq<T>)
    requires s == earlier + last && earlier == front + after
    ensures s == front + (after + last)
  {
  }

  lemma DropFront<T>(x: seq<T>, y: seq<T>)
    ensures (x + y)[|x|..] == y
  {
  }

  lemma CutInRead(before: seq<seq<Byte>>, read: seq<Byte>, after: seq<seq<Byte>>, p: nat)
    requires UndersizedAt((Joined(before) + read) + Joined(after)) == Some(p)
    requires |Joined(before)| < p + HEADER_SIZE <= |Joined(before) + read|
    ensures var whole, later := ClientSplit((Joined(before) + read) + Joined(after)), ClientFeed(after);
      whole.rest == [] && ClientFeed((before + [read]) + after) == (whole.packets + later.0, later.1)
  {
    hide *;
    var first, seen := Joined(before), Joined(before) + read;
    assert seen + Joined(after) == first + (read + Joined(after));
    UndersizedIsSeen(seen, Joined(after));
    UndersizedIsSeen(first, read + Joined(after));
    FeedUpToClear(before, read);
    NothingAfterClear(seen, Joined(after));
    FeedParts(before + [read], after);
  }

  /** The read that completes such a header loses the whole buffer, and the later ones start anew; seen as one
      read, the stream ends there. */
  lemma CutAtUndersized(chunks: seq<seq<Byte>>)
    requires UndersizedAt(Joined(chunks)).Some?
    ensures var p := UndersizedAt(Joined(chunks)).value;
      var whole, later := ClientSplit(Joined(chunks)), ClientFeed(chunks[Reads(chunks, p + HEADER_SIZE)..]);
      whole.rest == [] && ClientFeed(chunks) == (whole.packets + later.0, later.1)
  {
    hide *;
    ClearsAtUndersized(Joined(chunks));
    var p := UndersizedAt(Joined(chunks)).value;
    var before, read, after := TheRead(chunks, p + HEADER_SIZE);
    DropFront(before + [read], after);
    CutInRead(before, read, after, p);
  }

  /** Nothing comes of these reads, and nothing stays: no byte, or the first read that completes a header finds
      a size below the header's, and the same is true of the reads after it. */
  predicate Vanish(chunks: seq<seq<Byte>>)
    decreases |chunks|
  {
    var stream := Joined(chunks);
    stream == []
    || (|stream| >= HEADER_SIZE && SizeField(stream) < HEADER_SIZE && Vanish(chunks[Reads(chunks, HEADER_SIZE)..]))
  }

  lemma {:induction false} VanishIff(chunks: seq<seq<Byte>>)
    ensures ClientFeed(chunks) == ([], []) <==> Vanish(chunks)
    decreases |chunks|
  {
    hide ClientSplit, FromLe;
    var stream := Joined(chunks);
    ClearsAtUndersized(stream);
    if UndersizedAt(stream).None? {
      ClientIgnoresCuts(chunks);
      ClientLosesNothing(stream);
    } else {
      CutAtUndersized(chunks);
      VanishIff(chunks[Reads(chunks, UndersizedAt(stream).value + HEADER_SIZE)..]);
    }
  }

  lemma NothingAdded(a: seq<Packet>, b: seq<Packet>)
    ensures a + b == a <==> b == []
  {
    assert |a + b| == |a| + |b|;
  }

  /** When the cuts matter, for every list of reads: exactly when the stream holds a packet-aligned size below
      the header's, and the reads after the one that completes its header do not all vanish as well. */
  lemma ClientCutMatters(chunks: seq<seq<Byte>>)
    ensures var whole := ClientSplit(Joined(chunks));
      ClientFeed(chunks) == (whole.packets, whole.rest) <==>
        match UndersizedAt(Joined(chunks))
        case None => true
        case Some(p) => Vanish(chunks[Reads(chunks, p + HEADER_SIZE)..])
  {
    hide *;
    var stream := Joined(chunks);
    ClearsAtUndersized(stream);
    if UndersizedAt(stream).None? {
      ClientIgnoresCuts(chunks);
    } else {
      CutAtUndersized(chunks);
      var later := chunks[Reads(chunks, UndersizedAt(stream).value + HEADER_SIZE)..];
      VanishIff(later);
      NothingAdded(ClientSplit(stream).packets, ClientFeed(later).0);
    }
  }

  lemma {:induction false} ZeroWord(buf: seq<Byte>, pos: nat, n: nat)
    requires pos + n <= |buf| && (forall b :: b in buf ==> b == 0)
    ensures FromLe(buf, pos, n) == 0
    decreases n
  {
    if n > 0 {
      assert buf[pos] in buf;
      ZeroWord(buf, pos + 1, n - 1);
    }
  }

  /** The smallest such stream: a header of zero bytes and one byte more. Read at once, the last byte is lost;
      read after the header, it stays. */
  lemma CutAfterClearShows()
    ensures var header: seq<Byte> := [0, 0, 0, 0, 0, 0, 0, 0, 0, 0, 0, 0, 0, 0, 0];
      ClientFeed([header + [7]]) == ([], []) && ClientFeed([header, [7]]) == ([], [7])
  {
    var header: seq<Byte> := [0, 0, 0, 0, 0, 0, 0, 0, 0, 0, 0, 0, 0, 0, 0];
    hide ClientFeed;
    FeedOne(header);
    FeedOne(header + [7]);
    FeedOne([7]);
    assert SizeField(header) == 0 by {
      ZeroWord(header, 3, 4);
    }
    FrontAppend(header, [7]);
    assert [header, [7]] == [header] + [[7]];
    FeedParts([header], [[7]]);
  }

  lemma FeedOne(chunk: seq<Byte>)
    ensures ClientFeed([chunk]) == (ClientSplit(chunk).packets, ClientSplit(chunk).rest)
  {
    hide ClientSplit;
    assert [chunk][..0] == [];
    assert ClientFeed([]) == ([], []);
    var nothing: seq<Byte>, none: seq<Packet> := [], [];
    assert nothing + chunk == chunk;
    assert none + ClientSplit(chunk).packets == ClientSplit(chunk).packets;
  }

  // ---------------------------------------------------------------------------------------------
  // The server's splitter

  datatype Request = Request(command: nat, id: nat, payload: seq<Byte>)

  datatype Halt = Waiting | Rejected | Undersized

  datatype Served = Served(requests: seq<Request>, rest: seq<Byte>, halt: Halt)

  /** What the server makes of a buffer: its requests, and the bytes that stay. It rejects the connection at
      another kind of packet or an oversized one. The buffer keeps what was rejected. Sizes below the
      header's are where this model stops. */
  function ServerSplit(buf: seq<Byte>): Served {
    if |buf| < HEADER_SIZE then Served([], buf, Waiting)
    else if buf[0] != REQUEST || SizeField(buf) > MAX_PACKET_SIZE then Served([], buf, Rejected)
    else if |buf| < SizeField(buf) then Served([], buf, Waiting)
    else if SizeField(buf) < HEADER_SIZE then Served([], buf, Undersized)
    else
      var front := Front(buf, SizeField(buf));
      var more := ServerSplit(buf[SizeField(buf)..]);
      more.(requests := [Request(front.command, front.id, front.payload)] + more.requests)
  }

  /** What the server does with a buffer that holds a header: it rejects every kind but 0 and every size above
      8 MiB, waits for a packet that is not complete, and else takes it. */
  lemma ServerLimits(buf: seq<Byte>)
    requires |buf| >= 15
    ensures buf[0] != 0 || SizeField(buf) > 8 * 1024 * 1024 ==> ServerSplit(buf) == Served([], buf, Rejected)
    ensures buf[0] == 0 && 15 <= SizeField(buf) <= 8 * 1024 * 1024 ==>
              (ServerSplit(buf).requests == [] <==> |buf| < SizeField(buf))
    ensures buf[0] == 0 && |buf| < SizeField(buf) <= 8 * 1024 * 1024 ==> ServerSplit(buf) == Served([], buf, Waiting)
  {
    hide FromLe, Front;
  }

  /** A whole request that the server takes stands at the front. */
  predicate RequestInFront(buf: seq<Byte>) {
    |buf| >= HEADER_SIZE && buf[0] == REQUEST
    && HEADER_SIZE <= SizeField(buf) <= |buf| && SizeField(buf) <= MAX_PACKET_SIZE
  }

  lemma ServerTakesFront(buf: seq<Byte>)
    ensures RequestInFront(buf) ==>
              var front, more := Front(buf, SizeField(buf)), ServerSplit(buf[SizeField(buf)..]);
              ServerSplit(buf) == more.(requests := [Request(front.command, front.id, front.payload)] + more.requests)
    ensures !RequestInFront(buf) ==> ServerSplit(buf).requests == [] && ServerSplit(buf).rest == buf
  {
    hide FromLe, Front;
  }

  lemma RequestStaysInFront(x: seq<Byte>, y: seq<Byte>)
    requires RequestInFront(x)
    ensures RequestInFront(x + y) && SizeField(x + y) == SizeField(x)
    ensures Front(x + y, SizeField(x)) == Front(x, SizeField(x)) && (x + y)[SizeField(x)..] == x[SizeField(x)..] + y
  {
    hide FromLe, Front;
    FrontAppend(x, y);
  }

  /** Splitting two chunks at once is splitting the first, and then what it left with the second: for every
      byte stream. */
  lemma {:induction false} ServerSplitAppend(x: seq<Byte>, y: seq<Byte>)
    ensures var first := ServerSplit(x);
      var second := ServerSplit(first.rest + y);
      ServerSplit(x + y) == second.(requests := first.requests + second.requests)
    decreases |x|
  {
    hide ServerSplit, RequestInFront, Front, SizeField;
    ServerTakesFront(x);
    if RequestInFront(x) {
      FrontFits(x);
      var post := x[SizeField(x)..];
      RequestStaysInFront(x, y);
      ServerTakesFront(x + y);
      ServerSplitAppend(post, y);
    } else {
      var second := ServerSplit(x + y);
      assert [] + second.requests == second.requests;
    }
  }

  lemma FrontFits(buf: seq<Byte>)
    requires RequestInFront(buf)
    ensures |buf| >= HEADER_SIZE && HEADER_SIZE <= SizeField(buf) <= |buf|
  {
  }

  function ServerFeed(chunks: seq<seq<Byte>>): (seq<Request>, seq<Byte>) {
    if chunks == [] then ([], [])
    else
      var (requests, rest) := ServerFeed(chunks[..|chunks| - 1]);
      var split := ServerSplit(rest + chunks[|chunks| - 1]);
      (requests + split.requests, split.rest)
  }

  /** However any stream is cut into chunks, the server takes the same requests from it, keeps the same
      bytes, and so rejects the same streams. */
  lemma {:induction false} ServerIgnoresCuts(chunks: seq<seq<Byte>>)
    ensures ServerFeed(chunks) == (ServerSplit(Joined(chunks)).requests, ServerSplit(Joined(chunks)).rest)
    decreases |chunks|
  {
    hide ServerSplit;
    if chunks == [] {
      NothingServed();
    } else {
      var earlier, last := chunks[..|chunks| - 1], chunks[|chunks| - 1];
      ServerSplitAppend(Joined(earlier), last);
      ServerIgnoresCuts(earlier);
    }
  }

  lemma NothingServed()
    ensures ServerSplit([]) == Served([], [], Waiting)
  {
  }

  function AsRequests(packets: seq<Packet>): seq<Request> {
    seq(|packets|, i requires 0 <= i < |packets| => Request(packets[i].command, packets[i].id, packets[i].payload))
  }

  predicate RequestOk(p: Packet) {
    PacketOk(p) && p.kind == REQUEST && SizeOf(p) <= MAX_PACKET_SIZE
  }

  lemma {:induction false} ServerTakesRequests(packets: seq<Packet>, i: nat, tail: seq<Byte>)
    requires i <= |packets| && (forall p :: p in packets ==> RequestOk(p))
    requires ServerSplit(tail) == Served([], tail, Waiting)
    ensures ServerSplit(EncodeFrom(packets, i) + tail) == Served(AsRequests(packets)[i..], tail, Waiting)
    decreases |packets| - i
  {
    hide FromLe, Encode, PacketOk, ServerSplit, Front;
    if i == |packets| {
      assert EncodeFrom(packets, i) + tail == tail;
      assert AsRequests(packets)[i..] == [];
    } else {
      assert RequestOk(packets[i]);
      var post := EncodeFrom(packets, i + 1) + tail;
      var buf := Encode(packets[i]) + post;
      assert EncodeFrom(packets, i) + tail == buf;
      HeaderReads(packets[i], post);
      OneRequest(buf, packets[i]);
      ServerTakesRequests(packets, i + 1, tail);
      assert AsRequests(packets)[i..] == [AsRequests(packets)[i]] + AsRequests(packets)[i + 1..];
    }
  }

  lemma OneRequest(buf: seq<Byte>, p: Packet)
    requires RequestOk(p) && |buf| >= SizeOf(p) && SizeField(buf) == SizeOf(p) && Front(buf, SizeOf(p)) == p
    ensures var more := ServerSplit(buf[SizeOf(p)..]);
      ServerSplit(buf) == more.(requests := [Request(p.command, p.id, p.payload)] + more.requests)
  {
    hide FromLe;
  }

  /** At every moment of a stream of requests, cut into chunks in any way, the server has processed exactly
      the requests that are complete, in order, keeps exactly the beginning of the next, and rejects nothing. */
  lemma ServerDelivers(packets: seq<Packet>, chunks: seq<seq<Byte>>) returns (k: nat)
    requires (forall p :: p in packets ==> RequestOk(p)) && Joined(chunks) <= EncodeFrom(packets, 0)
    ensures k <= |packets| && ServerFeed(chunks).0 == AsRequests(packets[..k])
    ensures Joined(chunks) == EncodeFrom(packets[..k], 0) + ServerFeed(chunks).1
    ensures |ServerFeed(chunks).1| < if k == |packets| then 1 else SizeOf(packets[k])
    ensures ServerSplit(Joined(chunks)).halt == Waiting
  {
    hide ServerSplit, PacketOk;
    var tail;
    k, tail := PrefixIsWholePackets(packets, 0, |Joined(chunks)|);
    assert Joined(chunks) == EncodeFrom(packets[..k], 0) + tail;
    NothingServed();
    if k < |packets| {
      BeginningIsServed(packets[k], tail);
    }
    ServerTakesRequests(packets[..k], 0, tail);
    ServerIgnoresCuts(chunks);
  }

  lemma BeginningIsServed(p: Packet, tail: seq<Byte>)
    requires RequestOk(p) && |tail| < SizeOf(p) && tail == Encode(p)[..Min(|tail|, |Encode(p)|)]
    ensures ServerSplit(tail) == Served([], tail, Waiting)
  {
    hide FromLe, PacketOk;
    HeaderReads(p, []);
    BeginningIsIncomplete(p, tail);
  }

  // ---------------------------------------------------------------------------------------------
  // The connection objects

  /** ShadNetConnection's read side; `delivered` stands for the calls of onPacket. */
  class ClientConnection {
    var readBuf: seq<Byte>
    var delivered: seq<Packet>

    constructor ()
      ensures (delivered, readBuf) == ClientFeed([])
    {
      readBuf, delivered := [], [];
    }

    method Parse()
      modifies this
      ensures delivered == old(delivered) + ClientSplit(old(readBuf)).packets
      ensures readBuf == ClientSplit(old(readBuf)).rest
    {
      hide FromLe;
      while |readBuf| >= HEADER_SIZE
        invariant delivered + ClientSplit(readBuf).packets == old(delivered) + ClientSplit(old(readBuf)).packets
        invariant ClientSplit(readBuf).rest == ClientSplit(old(readBuf)).rest
        decreases |readBuf|
      {
        var totalSize := SizeField(readBuf);
        if totalSize < HEADER_SIZE {
          readBuf := [];
          return;
        }
        if |readBuf| < totalSize {
          return;
        }
        var packet := Front(readBuf, totalSize);
        readBuf := readBuf[totalSize..];
        delivered := delivered + [packet];
      }
    }

    /** One read: the state stays that of the chunks so far. */
    method Receive(chunk: seq<Byte>, ghost chunks: seq<seq<Byte>>)
      requires (delivered, readBuf) == ClientFeed(chunks)
      modifies this
      ensures (delivered, readBuf) == ClientFeed(chunks + [chunk])
    {
      hide ClientSplit;
      readBuf := readBuf + chunk;
      Parse();
      assert (chunks + [chunk])[..|chunks|] == chunks;
    }
  }

  /** ClientSession's read side; `processed` stands for the calls of ProcessPacket. */
  class ServerConnection {
    var readBuf: seq<Byte>
    var processed: seq<Request>
    var disconnected: bool

    constructor ()
      ensures (processed, readBuf) == ServerFeed([]) && !disconnected
    {
      readBuf, processed, disconnected := [], [], false;
    }

    method OnReadyRead(chunk: seq<Byte>, ghost chunks: seq<seq<Byte>>)
      requires (processed, readBuf) == ServerFeed(chunks)
      requires disconnected == ServerSplit(Joined(chunks)).halt.Rejected?
      modifies this
      ensures (processed, readBuf) == ServerFeed(chunks + [chunk])
      ensures disconnected == ServerSplit(Joined(chunks + [chunk])).halt.Rejected?
    {
      hide ServerSplit;
      ghost var was := processed;
      readBuf := readBuf + chunk;
      ghost var whole := ServerSplit(readBuf);
      assert (chunks + [chunk])[..|chunks|] == chunks;
      RejectionLasts(Joined(chunks), chunk);
      ServerIgnoresCuts(chunks);
      ServerSplitAppend(Joined(chunks), chunk);
      Serve();
    }

    method Serve()
      modifies this
      ensures processed == old(processed) + ServerSplit(old(readBuf)).requests
      ensures readBuf == ServerSplit(old(readBuf)).rest
      ensures disconnected == (old(disconnected) || ServerSplit(old(readBuf)).halt.Rejected?)
    {
      hide FromLe;
      ghost var whole := ServerSplit(readBuf);
      while |readBuf| >= HEADER_SIZE
        invariant processed + ServerSplit(readBuf).requests == old(processed) + whole.requests
        invariant ServerSplit(readBuf).rest == whole.rest && ServerSplit(readBuf).halt == whole.halt
        invariant disconnected == old(disconnected)
        decreases |readBuf|
      {
        if readBuf[0] != REQUEST {
          disconnected := true;
          return;
        }
        var size := SizeField(readBuf);
        if size > MAX_PACKET_SIZE {
          disconnected := true;
          return;
        }
        if |readBuf| < size || size < HEADER_SIZE {
          return;
        }
        var front := Front(readBuf, size);
        readBuf := readBuf[size..];
        processed := processed + [Request(front.command, front.id, front.payload)];
      }
    }
  }

  /** What was rejected stays rejected, whatever arrives after it. */
  lemma RejectionLasts(x: seq<Byte>, y: seq<Byte>)
    ensures ServerSplit(x).halt.Rejected? ==>
              ServerSplit(x + y).halt.Rejected? && ServerSplit(x + y).requests == ServerSplit(x).requests
  {
    ServerSplitAppend(x, y);
    if ServerSplit(x).halt.Rejected? {
      RejectedFront(x);
      FrontAppend(ServerSplit(x).rest, y);
    }
  }

  lemma {:induction false} RejectedFront(x: seq<Byte>)
    requires ServerSplit(x).halt.Rejected?
    ensures var rest := ServerSplit(x).rest;
      |rest| >= HEADER_SIZE && (rest[0] != REQUEST || SizeField(rest) > MAX_PACKET_SIZE)
    decreases |x|
  {
    hide FromLe;
    if x[0] == REQUEST && SizeField(x) <= MAX_PACKET_SIZE {
      RejectedFront(x[SizeField(x)..]);
    }
  }
}

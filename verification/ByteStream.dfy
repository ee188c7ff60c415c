// The first packet of a connection and the bytes after it: reading with arbitrary chunking, rewriting,
// replaying with arbitrary short writes, and relaying the rest.
module ByteStream {
  import opened Common
  import opened VarInt
  import opened Words
  import opened HandshakePacket

  // ---------------------------------------------------------------- client side

  // One WebSocket message: its reader delivers the fragments one by one and reports the end either with
  // the last fragment or on the read after it. Text and binary messages carry data; others are skipped.
  datatype Message = Message(isData: bool, fragments: seq<bytes>, endWithLast: bool)

  function Flatten(fragments: seq<bytes>): bytes {
    if fragments == [] then [] else fragments[0] + Flatten(fragments[1..])
  }

  // The byte stream a sequence of messages stands for.
  function DataBytes(messages: seq<Message>): bytes {
    if messages == [] then []
    else (if messages[0].isData then Flatten(messages[0].fragments) else []) + DataBytes(messages[1..])
  }

  function MessageCount(messages: seq<Message>): nat {
    if messages == [] then 0 else 2 + |messages[0].fragments| + MessageCount(messages[1..])
  }

  lemma FlattenSplitsFirst(fragments: seq<bytes>, n: nat)
    requires fragments != [] && n <= |fragments[0]|
    ensures Flatten(fragments) == fragments[0][..n] + Flatten([fragments[0][n..]] + fragments[1..])
  {
    var a, b, rest := fragments[0][..n], fragments[0][n..], fragments[1..];
    assert ([b] + rest)[1..] == rest;
    assert fragments[0] == a + b;
    assert a + b + Flatten(rest) == a + (b + Flatten(rest));
  }

  // One Read of a message's reader with room for capacity bytes: what it delivers, what is left, and
  // whether it reports the end of the message.
  function Delivered(m: Message, capacity: nat): (chunk: bytes)
    ensures |chunk| <= capacity
  {
    if m.fragments == [] then []
    else if |m.fragments[0]| <= capacity then m.fragments[0]
    else m.fragments[0][..capacity]
  }

  function Undelivered(m: Message, capacity: nat): seq<bytes> {
    if m.fragments == [] then []
    else if |m.fragments[0]| <= capacity then m.fragments[1..]
    else [m.fragments[0][capacity..]] + m.fragments[1..]
  }

  predicate ReportsEnd(m: Message, capacity: nat) {
    m.fragments == [] || (|m.fragments| == 1 && |m.fragments[0]| <= capacity && m.endWithLast)
  }

  lemma DeliveryConserves(m: Message, capacity: nat)
    ensures Flatten(m.fragments) == Delivered(m, capacity) + Flatten(Undelivered(m, capacity))
    ensures ReportsEnd(m, capacity) ==> Undelivered(m, capacity) == []
    ensures |Undelivered(m, capacity)| <= |m.fragments|
    ensures !ReportsEnd(m, capacity) && |Delivered(m, capacity)| < capacity ==>
              |Undelivered(m, capacity)| < |m.fragments|
  {
    if m.fragments != [] && |m.fragments[0]| > capacity {
      FlattenSplitsFirst(m.fragments, capacity);
    }
  }

  // A client connection. A TCP client is the case of a single data message whose fragments are the
  // chunks the kernel delivers.
  class ClientConn {
    var reader: Option<Message>
    var pending: seq<Message>

    constructor (messages: seq<Message>)
      ensures Remaining() == DataBytes(messages)
    {
      reader, pending := None, messages;
      new;
      assert [] + DataBytes(messages) == DataBytes(messages);
    }

    // All bytes the client has sent and the gateway has not read yet.
    function Remaining(): bytes
      reads this
    {
      (if reader.Some? then Flatten(reader.value.fragments) else []) + DataBytes(pending)
    }

    ghost function Work(): nat
      reads this
    {
      (if reader.Some? then 1 + |reader.value.fragments| else 0) + MessageCount(pending)
    }

    // One Read of the current message's reader.
    method ReadMessage(capacity: nat) returns (chunk: bytes, eof: bool)
      requires reader.Some? && capacity > 0
      modifies this
      ensures reader.Some? && pending == old(pending)
      ensures old(Remaining()) == chunk + Remaining() && |chunk| <= capacity
      ensures eof ==> reader.value.fragments == []
      ensures !eof && |chunk| < capacity ==> Work() < old(Work())
      ensures Work() <= old(Work())
    {
      var m := reader.value;
      chunk := Delivered(m, capacity);
      eof := ReportsEnd(m, capacity);
      reader := Some(m.(fragments := Undelivered(m, capacity)));
      DeliveryConserves(m, capacity);
      assert chunk + Flatten(reader.value.fragments) + DataBytes(pending) == chunk + Remaining();
    }

    // webSocketConn.Read: failed means the connection is over.
    method Read(capacity: nat) returns (chunk: bytes, failed: bool)
      requires capacity > 0
      modifies this
      ensures old(Remaining()) == chunk + Remaining() && |chunk| <= capacity
      ensures failed ==> chunk == [] && Remaining() == []
      ensures !failed ==> Work() < old(Work()) || |chunk| == capacity
      ensures Work() <= old(Work())
    {
      while true
        invariant Remaining() == old(Remaining())
        invariant Work() <= old(Work())
        decreases Work()
      {
        if reader.Some? {
          var eof;
          chunk, eof := ReadMessage(capacity);
          if eof {
            reader := None;
            if |chunk| > 0 {
              return chunk, false;
            }
            assert [] + Remaining() == Remaining();
            continue;
          }
          return chunk, false;
        }
        if pending == [] {
          return [], true;
        }
        var message := pending[0];
        pending := pending[1..];
        if !message.isData {
          continue;
        }
        reader := Some(message);
      }
    }

    // io.ReadFull of n bytes.
    method ReadFull(n: nat) returns (data: bytes, ok: bool)
      modifies this
      ensures old(Remaining()) == data + Remaining()
      ensures ok ==> |data| == n
      ensures !ok ==> |data| < n && Remaining() == []
    {
      data, ok := [], true;
      while |data| < n
        invariant |data| <= n
        invariant old(Remaining()) == data + Remaining()
        decreases n - |data| + Work()
      {
        var chunk, failed := Read(n - |data|);
        data := data + chunk;
        if failed {
          return data, false;
        }
      }
    }
  }

  // ---------------------------------------------------------------- readMinecraftPacket

  // What the streaming parser accepts from a stream s into a buffer of the given size: the length of the
  // first packet, prefix included.
  function StreamPacket(s: bytes, size: nat): Option<nat> {
    match Leb(s, 5)
    case Ok(length, n) =>
      if n > size || length == 0 || length > size - n || |s| < n + length then None else Some(n + length)
    case _ => None
  }

  lemma {:induction false} LebPrefix(s: bytes, k: nat, i: nat)
    requires i <= k && i <= |s| && forall j :: 0 <= j < i ==> s[j] >= 128
    ensures !Leb(s, k).Ok? || Leb(s, k).n > i
    ensures i == k ==> !Leb(s, k).Ok?
    ensures i == |s| ==> !Leb(s, k).Ok?
    decreases k
  {
    if i > 0 {
      LebPrefix(s[1..], k - 1, i - 1);
    }
  }

  // The prefix loop after reading the bytes of read, all of them continued.
  ghost predicate PrefixRead(s: bytes, read: bytes, length: nat) {
    && |read| <= 5 && read <= s
    && length < Pow128(|read|)
    && Leb(s, 5) == Shifted(length, |read|, Leb(s[|read|..], 5 - |read|))
    && (forall j :: 0 <= j < |read| ==> s[j] >= 128)
  }

  lemma OneMore(s: bytes, read: bytes)
    requires read <= s && |read| < |s|
    ensures read + [s[|read|]] <= s
  {
  }

  lemma PrefixStep(s: bytes, read: bytes, length: nat)
    requires PrefixRead(s, read, length) && |read| < 5 && |read| < |s|
    ensures var b := s[|read|];
            var next := length + Place(b, |read|);
            if b < 128 then Leb(s, 5) == Ok(next, |read| + 1) else PrefixRead(s, read + [b], next)
  {
    hide Leb, Place, Pow128, Shifted;
    LebStep(length, |read|, s);
    OneMore(s, read);
  }

  lemma PrefixStops(s: bytes, read: bytes, length: nat)
    requires PrefixRead(s, read, length)
    ensures !Leb(s, 5).Ok? || Leb(s, 5).n > |read|
    ensures |read| == 5 || |read| == |s| ==> !Leb(s, 5).Ok?
  {
    LebPrefix(s, 5, |read|);
  }

  lemma PrefixStart(s: bytes)
    ensures PrefixRead(s, [], 0)
  {
    assert s[0..] == s;
  }

  // io.ReadFull(reader, buf[at:at+1]).
  method ReadByte(conn: ClientConn, buf: array<byte>, at: nat) returns (full: bool)
    requires at < buf.Length
    modifies conn, buf
    ensures full <==> old(conn.Remaining()) != []
    ensures full ==> buf[at] == old(conn.Remaining())[0] && conn.Remaining() == old(conn.Remaining())[1..]
    ensures !full ==> conn.Remaining() == []
    ensures buf[..at] == old(buf[..at])
  {
    var data;
    data, full := conn.ReadFull(1);
    if full {
      buf[at] := data[0];
    }
  }

  // The prefix loop.
  method ReadLengthPrefix(conn: ClientConn, buf: array<byte>) returns (length: nat, prefixLength: nat, ok: bool)
    modifies conn, buf
    ensures ok <==> Leb(old(conn.Remaining()), 5).Ok? && Leb(old(conn.Remaining()), 5).n <= buf.Length
    ensures ok ==> Leb(old(conn.Remaining()), 5) == Ok(length, prefixLength)
    ensures prefixLength <= buf.Length && old(conn.Remaining()) == buf[..prefixLength] + conn.Remaining()
  {
    hide *;
    ghost var s := conn.Remaining();
    ghost var read: bytes := [];
    var value: word := 0;
    length, prefixLength, ok := 0, 0, false;
    PrefixStart(s);
    NothingGathered();
    while prefixLength < 5
      invariant 0 <= prefixLength <= 5 && prefixLength <= buf.Length
      invariant read == buf[..prefixLength] && s == read + conn.Remaining()
      invariant !ok && PrefixRead(s, read, Num(value)) && Below(value, prefixLength)
    {
      if prefixLength >= buf.Length {
        break;
      }
      ghost var remaining := conn.Remaining();
      var full := ReadByte(conn, buf, prefixLength);
      if !full {
        break;
      }
      NextByte(s, read, remaining);
      PrefixStep(s, read, Num(value));
      var b := buf[prefixLength];
      OrAddsPlace(value, b, prefixLength);
      GroupOfNum(b);
      value := Or(value, ShiftedTo(GroupOf(b), prefixLength));
      read := read + [b];
      prefixLength := prefixLength + 1;
      if !Continues(b) {
        length, ok := Num(value), true;
        break;
      }
    }
    if !ok {
      PrefixStops(s, read, Num(value));
    }
  }

  lemma NextByte(s: bytes, read: bytes, remaining: bytes)
    requires s == read + remaining && remaining != []
    ensures |read| < |s| && s[|read|] == remaining[0] && s == read + [remaining[0]] + remaining[1..]
  {
  }

  // readMinecraftPacket: on success it has consumed exactly the n bytes it stored.
  method ReadMinecraftPacket(conn: ClientConn, buf: array<byte>) returns (n: nat, ok: bool)
    modifies conn, buf
    ensures ok <==> StreamPacket(old(conn.Remaining()), buf.Length).Some?
    ensures ok ==> StreamPacket(old(conn.Remaining()), buf.Length) == Some(n)
    ensures ok ==> n <= buf.Length && old(conn.Remaining()) == buf[..n] + conn.Remaining()
  {
    ghost var s := conn.Remaining();
    var length, prefixLength, hasPrefix := ReadLengthPrefix(conn, buf);
    if !hasPrefix || length == 0 || length > buf.Length - prefixLength {
      return 0, false;
    }
    ghost var prefix := buf[..prefixLength];
    var data, full := conn.ReadFull(length);
    assert s == prefix + data + conn.Remaining();
    if !full {
      return 0, false;
    }
    forall i | 0 <= i < length {
      buf[prefixLength + i] := data[i];
    }
    assert buf[..prefixLength + length] == prefix + data;
    return prefixLength + length, true;
  }

  // readPacket in terms of the untruncated length.
  lemma ReadPrefixedByLeb(s: bytes)
    ensures ReadPrefixed(s)
         == match Leb(s, 5)
            case Ok(v, n) =>
              var length := ToInt32(v);
              if length < 0 || |s| - n < length then Incomplete else Ok(s[n..n + length], n + length)
            case Incomplete => Incomplete
            case TooLong => TooLong
  {
    hide Leb, ToInt32;
  }

  // The two parsers of a length prefix. The streaming one accepts exactly the packets that readPacket
  // accepts, are not empty, fit the buffer, and spell their length without overflowing 32 bits: then
  // both agree on the packet's extent.
  lemma ParsersAgree(s: bytes, size: nat, n: nat)
    requires size < 0x8000_0000
    ensures StreamPacket(s, size) == Some(n) <==>
              && ReadPrefixed(s).Ok? && ReadPrefixed(s).n == n
              && ReadPrefixed(s).value != [] && n <= size && Leb(s, 5).value < 0x8000_0000
  {
    ReadPrefixedByLeb(s);
    hide ReadPrefixed, Leb, ToInt32;
    if Leb(s, 5).Ok? {
      ToInt32Keeps(Leb(s, 5).value);
    }
  }

  // The bytes readMinecraftPacket stored parse on their own to the whole packet.
  lemma StoredPacketParses(s: bytes, size: nat, n: nat)
    requires size < 0x8000_0000 && StreamPacket(s, size) == Some(n)
    ensures n <= |s| && ReadPrefixed(s[..n]) == ReadPrefixed(s) && ReadPrefixed(s).Ok? && ReadPrefixed(s).n == n
  {
    ParsersAgree(s, size, n);
    hide *;
    ReadPrefixedStable(s, []);
  }

  // Without the overflow condition they disagree: this prefix means 2^32 + 1, which readPacket
  // truncates to 1 and readMinecraftPacket refuses.
  lemma OverflowingPrefix(size: nat)
    requires size < 0x8000_0000
    ensures var s: bytes := [0x81, 0x80, 0x80, 0x80, 0x10, 0x00];
            ReadPrefixed(s) == Ok([0x00], 6) && StreamPacket(s, size) == None
  {
    var s: bytes := [0x81, 0x80, 0x80, 0x80, 0x10, 0x00];
    assert s[1..] == [0x80, 0x80, 0x80, 0x10, 0x00];
    assert s[1..][1..] == [0x80, 0x80, 0x10, 0x00];
    assert s[1..][1..][1..] == [0x80, 0x10, 0x00];
    assert s[1..][1..][1..][1..] == [0x10, 0x00];
    assert Leb([0x10, 0x00], 1) == Ok(0x10, 1);
    assert Leb([0x80, 0x10, 0x00], 2) == Ok(0x800, 2);
    assert Leb([0x80, 0x80, 0x10, 0x00], 3) == Ok(0x40000, 3);
    assert Leb([0x80, 0x80, 0x80, 0x10, 0x00], 4) == Ok(0x200_0000, 4);
    assert Leb(s, 5) == Ok(0x1_0000_0001, 5);
    assert s[5..6] == [0x00];
  }

  // ---------------------------------------------------------------- upstream side

  // How one Write behaves: at most limit bytes are taken, and it may report an error.
  datatype WriteStep = WriteStep(limit: nat, fails: bool)

  class Upstream {
    var received: bytes
    var script: seq<WriteStep>

    constructor (script: seq<WriteStep>)
      ensures received == [] && this.script == script
    {
      received, this.script := [], script;
    }

    // Past the script, writes are complete and succeed.
    method Write(buf: bytes) returns (n: nat, failed: bool)
      modifies this
      ensures n <= |buf| && received == old(received) + buf[..n]
      ensures old(script) == [] ==> n == |buf| && !failed && script == []
      ensures old(script) != [] ==>
                && n == (if old(script)[0].limit <= |buf| then old(script)[0].limit else |buf|)
                && failed == old(script)[0].fails
                && script == old(script)[1..]
    {
      if script == [] {
        n, failed := |buf|, false;
      } else {
        n := if script[0].limit <= |buf| then script[0].limit else |buf|;
        failed := script[0].fails;
        script := script[1..];
      }
      received := received + buf[..n];
    }
  }

  // Writes may be short but always take something and never fail.
  predicate OnlyShort(script: seq<WriteStep>) {
    forall i :: 0 <= i < |script| ==> script[i].limit > 0 && !script[i].fails
  }

  // The handshake in the first packet of the client, if it has one.
  function ClientHandshake(s: bytes): Handshake {
    if StreamPacket(s, PROXY_BUFFER_SIZE).Some? then ParseHandshake(s[..StreamPacket(s, PROXY_BUFFER_SIZE).value])
    else ZERO
  }

  // The rewrite, if any, leaves a packet whose length is a VarInt.
  predicate Rewritable(s: bytes, d: Decisions) {
    StreamPacket(s, PROXY_BUFFER_SIZE).Some? && d.filter.Some? ==>
      Fits(s[..StreamPacket(s, PROXY_BUFFER_SIZE).value], d.filter.value)
  }

  // Which connections reach the upstream, from what the client itself sent: those with a host that the
  // filter lets pass and that have a route, unless they are status queries that a plugin answered.
  lemma ConnectsExactly(s: bytes, d: Decisions)
    requires Rewritable(s, d)
    ensures Connects(s, d) <==>
              && ClientHandshake(s).serverHost != [] && d.filter.Some? && d.routed
              && (ClientHandshake(s).nextState == 1 ==> !d.statusHandled)
  {
    hide ParseHandshake, StreamPacket, FirstPacket, Fits;
    NoHostInZero();
    if StreamPacket(s, PROXY_BUFFER_SIZE).Some? && ClientHandshake(s).serverHost != [] && d.filter.Some? {
      StoredPacketParses(s, PROXY_BUFFER_SIZE, StreamPacket(s, PROXY_BUFFER_SIZE).value);
      FirstPacketIsSame(s[..StreamPacket(s, PROXY_BUFFER_SIZE).value], d.filter.value);
    }
  }

  lemma NoHostInZero()
    ensures ZERO.serverHost == []
  {
  }

  lemma HandshakeDecides(s: bytes, d: Decisions)
    ensures ClientHandshake(s).serverHost == [] || d.filter.None? || !d.routed ==> !Connects(s, d)
    ensures Rewritable(s, d) && ClientHandshake(s).nextState == 1 && d.statusHandled ==> !Connects(s, d)
    ensures Rewritable(s, d) && Welcome(ClientHandshake(s), d) ==> Connects(s, d)
  {
    NoHostInZero();
    if Rewritable(s, d) {
      ConnectsExactly(s, d);
    }
  }

  // A host, let pass and routed, and no status query that a plugin answered.
  predicate Welcome(hs: Handshake, d: Decisions) {
    hs.serverHost != [] && d.filter.Some? && d.routed && (hs.nextState == 1 ==> !d.statusHandled)
  }

  // Without a rewrite the upstream is to receive exactly the client's bytes; with one, a first packet with
  // the same handshake for the new host, and after it every byte that followed the client's first packet.
  lemma RelayedIsClients(s: bytes, d: Decisions)
    requires Connects(s, d) && Rewritable(s, d)
    ensures d.filter == Some([]) ==> Relayed(s, d) == s
    ensures ReadPrefixed(s).Ok? && ReadPrefixed(Relayed(s, d)).Ok?
    ensures Relayed(s, d)[ReadPrefixed(Relayed(s, d)).n..] == s[ReadPrefixed(s).n..]
    ensures SameHandshake(s[..ReadPrefixed(s).n], d.filter.value, Relayed(s, d)[..ReadPrefixed(Relayed(s, d)).n])
  {
    hide ParseHandshake, FirstPacket, SameHandshake, StreamPacket, ReadPrefixed, Fits;
    var n := StreamPacket(s, PROXY_BUFFER_SIZE).value;
    StoredPacketParses(s, PROXY_BUFFER_SIZE, n);
    var first := FirstPacket(s[..n], d.filter.value);
    FirstPacketIsSame(s[..n], d.filter.value);
    WholeAfterWhole(s[..n], d.filter.value, first);
    ReadPrefixedStable(first, s[n..]);
    assert (first + s[n..])[..|first|] == first && (first + s[n..])[|first|..] == s[n..];
    if d.filter.value == [] {
      NoRewrite(s[..n]);
      assert s[..n] + s[n..] == s;
    }
  }

  lemma WholeAfterWhole(packet: bytes, rewrite: bytes, replayed: bytes)
    requires SameHandshake(packet, rewrite, replayed) && ReadPrefixed(packet).Ok? && ReadPrefixed(packet).n == |packet|
    ensures ReadPrefixed(replayed).Ok? && ReadPrefixed(replayed).n == |replayed|
  {
  }

  lemma NoRewrite(packet: bytes)
    requires ParseHandshake(packet).serverHost != []
    ensures FirstPacket(packet, []) == packet
  {
  }

  // received is what it was before, followed by the first bytes of data.
  ghost predicate ExtendedByPrefix(before: bytes, received: bytes, data: bytes) {
    exists k: nat :: k <= |data| && received == before + data[..k]
  }

  lemma PrefixOfSum(before: bytes, received: bytes, first: bytes, rest: bytes)
    requires ExtendedByPrefix(before, received, first)
    ensures ExtendedByPrefix(before, received, first + rest)
  {
    var k: nat :| k <= |first| && received == before + first[..k];
    assert (first + rest)[..k] == first[..k];
  }

  // Loops over short writes; gives up on an error and on a write that takes nothing.
  method WriteAll(w: Upstream, data: bytes) returns (ok: bool)
    modifies w
    ensures ok ==> w.received == old(w.received) + data
    ensures ExtendedByPrefix(old(w.received), w.received, data)
    ensures OnlyShort(old(w.script)) ==> ok
    ensures old(w.script) == [] ==> w.script == []
  {
    var buf := data;
    ghost var done := 0;
    while |buf| > 0
      invariant done <= |data| && buf == data[done..]
      invariant w.received == old(w.received) + data[..done]
      invariant OnlyShort(old(w.script)) ==> OnlyShort(w.script)
      invariant old(w.script) == [] ==> w.script == []
    {
      var n, failed := w.Write(buf);
      assert data[..done] + buf[..n] == data[..done + n];
      done := done + n;
      if n > 0 {
        buf := buf[n..];
      }
      if failed {
        return false;
      }
      if n == 0 {
        return false;
      }
    }
    assert data[..done] == data;
    return true;
  }

  const PROXY_BUFFER_SIZE: nat := 65536

  lemma Advance(all: bytes, sent: bytes, chunk: bytes, n: nat, remaining: bytes)
    requires all == sent + (chunk + remaining) && n <= |chunk|
    ensures all == (sent + chunk[..n]) + chunk[n..] + remaining
    ensures n == |chunk| ==> all == (sent + chunk[..n]) + remaining
    ensures chunk == [] ==> all == sent + remaining
    ensures chunk == [] && remaining == [] ==> all == sent && all == sent + [] + remaining
  {
  }

  lemma Associative(a: bytes, b: bytes, c: bytes)
    ensures (a + b) + c == a + (b + c)
  {
  }

  // What the relay has sent and what it has read but not sent, after it stopped.
  ghost predicate CopiedPart(before: bytes, received: bytes, all: bytes, sent: bytes, unsent: bytes, left: bytes) {
    received == before + sent && all == sent + unsent + left
  }

  // io.CopyBuffer: one read, one write; a short or failed write ends the copy.
  method ProxyCopy(dst: Upstream, src: ClientConn) returns (complete: bool)
    modifies dst, src
    ensures exists sent: bytes, unsent: bytes ::
              CopiedPart(old(dst.received), dst.received, old(src.Remaining()), sent, unsent, src.Remaining())
    ensures complete ==> dst.received == old(dst.received) + old(src.Remaining())
    ensures old(dst.script) == [] ==> complete
  {
    hide ClientConn.Remaining, OnlyShort;
    ghost var before, all := dst.received, src.Remaining();
    ghost var sent: bytes := [];
    assert before + [] == before && [] + all == all;
    while true
      invariant dst.received == before + sent && all == sent + src.Remaining()
      invariant old(dst.script) == [] ==> dst.script == []
      decreases |src.Remaining()| + src.Work()
    {
      var chunk, failed := src.Read(PROXY_BUFFER_SIZE);
      if failed {
        Advance(all, sent, chunk, 0, src.Remaining());
        assert CopiedPart(before, dst.received, all, sent, [], src.Remaining());
        return true;
      }
      if |chunk| > 0 {
        var n, writeFailed := dst.Write(chunk);
        Advance(all, sent, chunk, n, src.Remaining());
        Associative(before, sent, chunk[..n]);
        if writeFailed || n != |chunk| {
          assert CopiedPart(before, dst.received, all, sent + chunk[..n], chunk[n..], src.Remaining());
          return false;
        }
        sent := sent + chunk[..n];
      } else {
        Advance(all, sent, chunk, 0, src.Remaining());
      }
    }
  }

  // ---------------------------------------------------------------- the gateway's pipeline

  // What the parts outside this model decide about a connection.
  datatype Decisions = Decisions(
    filter: Option<bytes>,   // handshake filter: None rejects, Some(host) allows with that rewrite
    statusHandled: bool,     // a plugin answered the status query
    routed: bool)            // a route was found and the upstream dialled

  // The bytes replayed to the upstream for a first packet.
  function FirstPacket(packet: bytes, rewrite: bytes): bytes
    requires ParseHandshake(packet).serverHost != []
  {
    if rewrite != [] && rewrite != ParseHandshake(packet).serverHost then
      ParsedHostCanBeReplaced(packet, rewrite);
      ReplaceMcHost(packet, rewrite).value
    else packet
  }

  // Whether the first packet of s is replayed to an upstream at all.
  predicate Connects(s: bytes, d: Decisions) {
    && StreamPacket(s, PROXY_BUFFER_SIZE).Some?
    && var packet := s[..StreamPacket(s, PROXY_BUFFER_SIZE).value];
    && ParseHandshake(packet).serverHost != []
    && d.filter.Some?
    && !(ParseHandshake(FirstPacket(packet, d.filter.value)).nextState == 1 && d.statusHandled)
    && d.routed
  }

  // What the upstream is to receive: the rewritten first packet, then every other client byte.
  function Relayed(s: bytes, d: Decisions): bytes
    requires Connects(s, d)
  {
    var n := StreamPacket(s, PROXY_BUFFER_SIZE).value;
    FirstPacket(s[..n], d.filter.value) + s[n..]
  }

  // What the upstream makes of the replayed packet: the handshake of the client, with the rewritten host
  // in front of the old NUL suffix, and no byte more or less than one packet if the client's was one.
  predicate SameHandshake(packet: bytes, rewrite: bytes, replayed: bytes) {
    var before, after := ParseHandshake(packet), ParseHandshake(replayed);
    && after.protocolVersion == before.protocolVersion && after.nextState == before.nextState
    && (rewrite == [] ==> replayed == packet)
    && (rewrite != [] ==>
          && after.rawServerHost == rewrite + NulSuffix(before.rawServerHost)
          && (after.serverHost == rewrite <==> NulFree(rewrite)))
    && ReadPrefixed(replayed).Ok? && ReadPrefixed(packet).Ok?
    && (ReadPrefixed(replayed).n == |replayed| <==> ReadPrefixed(packet).n == |packet|)
  }

  lemma ReplacedPacket(packet: bytes, rewrite: bytes)
    requires ParseHandshake(packet).serverHost != [] && Fits(packet, rewrite) && rewrite != []
    ensures ReplaceMcHost(packet, rewrite).Some?
    ensures SameHandshake(packet, rewrite, ReplaceMcHost(packet, rewrite).value)
  {
    hide ParseHandshake, ReplaceMcHost, ReadPrefixed, SplitPacket, NulSuffix, NulFree, Fits, NextState;
    ParsedHostCanBeReplaced(packet, rewrite);
    PutGet(packet, rewrite);
    Put(packet, rewrite);
    RestOfSplit(packet);
    RestOfSplit(ReplaceMcHost(packet, rewrite).value);
  }

  lemma RestOfSplit(buf: bytes)
    requires Split(buf).Some?
    ensures ReadPrefixed(buf).Ok? && (ReadPrefixed(buf).n == |buf| <==> Split(buf).value.rest == [])
  {
  }

  lemma FirstPacketIsSame(packet: bytes, rewrite: bytes)
    requires ParseHandshake(packet).serverHost != [] && Fits(packet, rewrite)
    ensures SameHandshake(packet, rewrite, FirstPacket(packet, rewrite))
  {
    hide ReplaceMcHost, ReadPrefixed, Fits, SplitPacket;
    ParsedHostCanBeReplaced(packet, rewrite);
    RestOfSplit(packet);
    if rewrite != [] {
      if rewrite == ParseHandshake(packet).serverHost {
        ParseIsSplit(packet);
        GlueNul(rewrite, ParseHandshake(packet).rawServerHost);
      } else {
        ReplacedPacket(packet, rewrite);
      }
    }
  }

  // The rewrite step of mapToHost.
  method ApplyRewrite(packet: bytes, rewrite: bytes) returns (initialData: bytes)
    requires ParseHandshake(packet).serverHost != []
    ensures initialData == FirstPacket(packet, rewrite)
    ensures Fits(packet, rewrite) ==> SameHandshake(packet, rewrite, initialData)
  {
    hide ParseHandshake, ReplaceMcHost, Fits, SameHandshake;
    if Fits(packet, rewrite) {
      FirstPacketIsSame(packet, rewrite);
    }
    initialData := packet;
    if rewrite != [] && rewrite != ParseHandshake(packet).serverHost {
      ParsedHostCanBeReplaced(packet, rewrite);
      initialData := ReplaceMcHost(packet, rewrite).value;
    }
  }

  // mapToHost up to and including the replay of the first packet.
  method MapToHost(conn: ClientConn, upstream: Upstream, d: Decisions) returns (connected: bool)
    modifies conn, upstream
    ensures connected ==> Connects(old(conn.Remaining()), d)
    ensures connected ==>
              upstream.received + conn.Remaining() == old(upstream.received) + Relayed(old(conn.Remaining()), d)
    ensures Connects(old(conn.Remaining()), d) ==>
              ExtendedByPrefix(old(upstream.received), upstream.received, Relayed(old(conn.Remaining()), d))
    ensures OnlyShort(old(upstream.script)) && Connects(old(conn.Remaining()), d) ==> connected
    ensures !Connects(old(conn.Remaining()), d) ==> upstream.received == old(upstream.received)
    ensures old(upstream.script) == [] ==> upstream.script == []
    // The same from the client's own handshake: a missing host, a refusal or a missing route keep it away
    // from the upstream, and so does an answered status query, and nothing else.
    ensures var hs := ClientHandshake(old(conn.Remaining()));
            hs.serverHost == [] || d.filter.None? || !d.routed ==> upstream.received == old(upstream.received)
    ensures var s, hs := old(conn.Remaining()), ClientHandshake(old(conn.Remaining()));
            Rewritable(s, d) && hs.nextState == 1 && d.statusHandled ==> upstream.received == old(upstream.received)
    ensures var s, hs := old(conn.Remaining()), ClientHandshake(old(conn.Remaining()));
            Rewritable(s, d) && Welcome(hs, d) && OnlyShort(old(upstream.script)) ==> connected
  {
    hide ParseHandshake, FirstPacket, StreamPacket, ClientConn.Remaining, OnlyShort, SameHandshake, ExtendedByPrefix;
    hide ClientHandshake, Rewritable, Welcome;
    var buf := new byte[PROXY_BUFFER_SIZE];
    ghost var s := conn.Remaining();
    HandshakeDecides(s, d);
    var n, ok := ReadMinecraftPacket(conn, buf);
    if !ok {
      return false;
    }
    var initialData := buf[..n];
    assert initialData == s[..n] && conn.Remaining() == s[n..];
    var handshake := ParseHandshake(initialData);
    if handshake.serverHost == [] || d.filter.None? {
      return false;
    }
    initialData := ApplyRewrite(initialData, d.filter.value);
    handshake := ParseHandshake(initialData);
    if handshake.nextState == 1 && d.statusHandled {
      return false;
    }
    if !d.routed {
      return false;
    }
    ghost var before := upstream.received;
    connected := WriteAll(upstream, initialData);
    assert Relayed(s, d) == initialData + s[n..];
    PrefixOfSum(before, upstream.received, initialData, s[n..]);
  }

  // The whole client-to-upstream direction: for every chunking of the client's bytes and every pattern of
  // writes, the upstream has received a prefix of the relayed bytes and nothing else, and all of them
  // when the copy ends normally.
  method Serve(conn: ClientConn, upstream: Upstream, d: Decisions) returns (complete: bool)
    modifies conn, upstream
    ensures complete ==> Connects(old(conn.Remaining()), d)
    ensures complete ==> upstream.received == old(upstream.received) + Relayed(old(conn.Remaining()), d)
    ensures Connects(old(conn.Remaining()), d) ==>
              ExtendedByPrefix(old(upstream.received), upstream.received, Relayed(old(conn.Remaining()), d))
    ensures old(upstream.script) == [] ==> (complete <==> Connects(old(conn.Remaining()), d))
    ensures !Connects(old(conn.Remaining()), d) ==> upstream.received == old(upstream.received)
    // From the client's own handshake, as for mapToHost; without a rewrite the upstream gets the client's bytes.
    ensures var hs := ClientHandshake(old(conn.Remaining()));
            hs.serverHost == [] || d.filter.None? || !d.routed ==> upstream.received == old(upstream.received)
    ensures var s, hs := old(conn.Remaining()), ClientHandshake(old(conn.Remaining()));
            Rewritable(s, d) && hs.nextState == 1 && d.statusHandled ==> upstream.received == old(upstream.received)
    ensures var s, hs := old(conn.Remaining()), ClientHandshake(old(conn.Remaining()));
            Rewritable(s, d) && Welcome(hs, d) && old(upstream.script) == [] ==>
              complete && (d.filter == Some([]) ==> upstream.received == old(upstream.received) + s)
  {
    hide ClientConn.Remaining, Connects, Relayed, ClientHandshake, Rewritable, Welcome;
    ghost var before, s := upstream.received, conn.Remaining();
    HandshakeDecides(s, d);
    if Rewritable(s, d) && Connects(s, d) {
      RelayedIsClients(s, d);
    }
    var connected := MapToHost(conn, upstream, d);
    if !connected {
      return false;
    }
    ghost var replayed, rest := upstream.received, conn.Remaining();
    complete := ProxyCopy(upstream, conn);
    ghost var sent, unsent :| CopiedPart(replayed, upstream.received, rest, sent, unsent, conn.Remaining());
    PrefixOfWhole(before, replayed, sent, unsent + conn.Remaining(), Relayed(s, d));
  }

  lemma PrefixOfWhole(before: bytes, replayed: bytes, sent: bytes, rest: bytes, data: bytes)
    requires replayed + (sent + rest) == before + data && |before| <= |replayed|
    ensures ExtendedByPrefix(before, replayed + sent, data)
  {
    var k := |replayed| + |sent| - |before|;
    assert before + data == (replayed + sent) + rest;
    assert replayed + sent == (before + data)[..|before| + k] == before + data[..k];
  }
}

// Parsing and rewriting the host of a Minecraft handshake: ParseHandshake is the "get" and ReplaceMcHost
// the "put" of a lens on the connection's first bytes.
module HandshakePacket {
  import opened Common
  import opened VarInt

  datatype Handshake = Handshake(rawServerHost: bytes, serverHost: bytes, protocolVersion: int, nextState: int)

  // Handshake{}: what the source returns on every parse failure.
  const ZERO: Handshake := Handshake([], [], 0, 0)

  // strings.IndexRune(s, 0), with |s| for "not found".
  function NulIndex(s: bytes): (i: nat)
    ensures i <= |s|
    ensures forall k :: 0 <= k < i ==> s[k] != 0
    ensures i < |s| ==> s[i] == 0
  {
    if s == [] || s[0] == 0 then 0 else 1 + NulIndex(s[1..])
  }

  predicate NulFree(s: bytes) {
    forall k :: 0 <= k < |s| ==> s[k] != 0
  }

  function BeforeNul(s: bytes): bytes {
    s[..NulIndex(s)]
  }

  // The part the source keeps for Forge and Bungee clients.
  function NulSuffix(s: bytes): bytes {
    s[NulIndex(s)..]
  }

  function ParseHandshake(buf: bytes): Handshake {
    var r0 := ReadPrefixed(buf);
    if !r0.Ok? || |r0.value| == 0 then ZERO
    else
      var packet := r0.value;
      var r1 := ReadVarInt(packet);
      if !r1.Ok? || r1.value != 0 then ZERO
      else
        var packet := packet[r1.n..];
        var r2 := ReadVarInt(packet);
        if !r2.Ok? then ZERO
        else
          var packet := packet[r2.n..];
          var r3 := ReadPrefixed(packet);
          if !r3.Ok? then ZERO
          else
            var packet := packet[r3.n..];
            if |packet| < 2 then ZERO
            else
              var r5 := ReadVarInt(packet[2..]);
              if !r5.Ok? then ZERO
              else Handshake(r3.value, BeforeNul(r3.value), r2.value, r5.value)
  }

  // None is the nil the source returns when the first packet is incomplete or no handshake.
  function ReplaceMcHost(buf: bytes, host: bytes): Option<bytes> {
    var r0 := ReadPrefixed(buf);
    if !r0.Ok? || |r0.value| == 0 then None
    else
      var packet := r0.value;
      var r1 := ReadVarInt(packet);
      if !r1.Ok? || r1.value != 0 then None
      else
        var r2 := ReadVarInt(packet[r1.n..]);
        if !r2.Ok? then None
        else
          var prefixEnd := r1.n + r2.n;
          var r3 := ReadPrefixed(packet[prefixEnd..]);
          if !r3.Ok? then None
          else
            var hostEnd := prefixEnd + r3.n;
            var newHost := host + NulSuffix(r3.value);
            var payload := packet[..prefixEnd] + Encode(|newHost|) + newHost + packet[hostEnd..];
            Some(Encode(|payload|) + payload + buf[r0.n..])
  }

  // ---------------------------------------------------------------- one view behind both

  datatype Head = Head(version: int, n: nat)

  // Packet id 0 and the protocol version.
  function ReadHead(packet: bytes): (h: Option<Head>)
    ensures h.Some? ==> 0 < h.value.n <= |packet|
  {
    var r1 := ReadVarInt(packet);
    if !r1.Ok? || r1.value != 0 then None
    else
      var r2 := ReadVarInt(packet[r1.n..]);
      if !r2.Ok? then None else Some(Head(r2.value, r1.n + r2.n))
  }

  lemma HeadStable(packet: bytes, rest: bytes)
    requires ReadHead(packet).Some?
    ensures ReadHead(packet + rest) == ReadHead(packet) == ReadHead(packet[..ReadHead(packet).value.n])
  {
    var n := ReadHead(packet).value.n;
    var n1 := ReadVarInt(packet).n;
    ReadVarIntStable(packet, rest);
    ReadVarIntStable(packet[..n1], packet[n1..n]);
    assert packet[..n1] + packet[n1..n] == packet[..n];
    ReadVarIntStable(packet[n1..], rest);
    assert (packet + rest)[n1..] == packet[n1..] + rest;
    assert packet[..n][n1..] == packet[n1..][..n - n1];
  }

  // The pieces of a buffer that starts with a handshake up to its host field.
  datatype View = View(prefix: bytes, version: int, rawHost: bytes, tail: bytes, rest: bytes)

  function SplitPacket(packet: bytes, rest: bytes): Option<View> {
    match ReadHead(packet)
    case None => None
    case Some(head) =>
      var field := ReadPrefixed(packet[head.n..]);
      if !field.Ok? then None
      else Some(View(packet[..head.n], head.version, field.value, packet[head.n + field.n..], rest))
  }

  function Split(buf: bytes): Option<View> {
    var r := ReadPrefixed(buf);
    if !r.Ok? then None else SplitPacket(r.value, buf[r.n..])
  }

  // Port and next state; the port is only skipped.
  function NextState(tail: bytes): Option<int> {
    if |tail| < 2 || !ReadVarInt(tail[2..]).Ok? then None else Some(ReadVarInt(tail[2..]).value)
  }

  function Payload(v: View): bytes {
    v.prefix + Frame(v.rawHost) + v.tail
  }

  function Build(v: View): bytes {
    Frame(Payload(v)) + v.rest
  }

  lemma ReplaceIsBuild(buf: bytes, host: bytes)
    ensures ReplaceMcHost(buf, host)
         == match Split(buf)
            case Some(v) => Some(Build(v.(rawHost := host + NulSuffix(v.rawHost))))
            case None => None
  {
    hide ReadVarInt, ReadPrefixed, Encode, NulIndex;
    if Split(buf).Some? {
      var v := Split(buf).value;
      var newHost := host + NulSuffix(v.rawHost);
      assert v.prefix + Encode(|newHost|) + newHost + v.tail == Payload(v.(rawHost := newHost));
    }
  }

  lemma ParseIsSplit(buf: bytes)
    ensures ParseHandshake(buf)
         == match Split(buf)
            case Some(v) =>
              (match NextState(v.tail)
               case Some(next) => Handshake(v.rawHost, BeforeNul(v.rawHost), v.version, next)
               case None => ZERO)
            case None => ZERO
  {
    hide ReadVarInt, ReadPrefixed, NulIndex, BeforeNul;
    if ReadPrefixed(buf).Ok? {
      var packet := ReadPrefixed(buf).value;
      if ReadHead(packet).Some? {
        var n1, n := ReadVarInt(packet).n, ReadHead(packet).value.n;
        Drop(packet, n1, n - n1);
        if ReadPrefixed(packet[n..]).Ok? {
          Drop(packet, n, ReadPrefixed(packet[n..]).n);
        }
      }
    }
  }

  lemma Drop(s: bytes, m: nat, n: nat)
    requires m + n <= |s|
    ensures s[m..][n..] == s[m + n..]
  {
  }

  lemma SplitOfBuild(v: View)
    requires ReadHead(v.prefix) == Some(Head(v.version, |v.prefix|)) && |Payload(v)| < 0x8000_0000
    ensures Split(Build(v)) == Some(v)
  {
    hide ReadVarInt, ReadPrefixed, ReadHead, Encode;
    var packet := Payload(v);
    ReadFrame(packet, v.rest);
    assert Build(v)[|Frame(packet)|..] == v.rest;
    var after := Frame(v.rawHost) + v.tail;
    assert packet == v.prefix + after;
    HeadStable(v.prefix, after);
    assert packet[|v.prefix|..] == after && packet[..|v.prefix|] == v.prefix;
    ReadFrame(v.rawHost, v.tail);
    assert packet[|v.prefix| + |Frame(v.rawHost)|..] == v.tail;
  }

  lemma SplitHead(buf: bytes)
    requires Split(buf).Some?
    ensures var v := Split(buf).value; ReadHead(v.prefix) == Some(Head(v.version, |v.prefix|))
  {
    HeadStable(ReadPrefixed(buf).value, []);
  }

  lemma NulIndexIs(s: bytes, i: nat)
    requires i <= |s| && (forall k :: 0 <= k < i ==> s[k] != 0) && (i < |s| ==> s[i] == 0)
    ensures NulIndex(s) == i
  {
  }

  // Gluing a host to a NUL suffix: only the first NUL counts.
  lemma GlueNul(host: bytes, raw: bytes)
    ensures NulFree(host) ==> BeforeNul(host + NulSuffix(raw)) == host
    ensures NulFree(host) ==> NulSuffix(host + NulSuffix(raw)) == NulSuffix(raw)
    ensures !NulFree(host) ==> |BeforeNul(host + NulSuffix(raw))| < |host|
    ensures !NulFree(host) ==> |NulSuffix(host + NulSuffix(raw))| > |NulSuffix(raw)|
    ensures BeforeNul(raw) + NulSuffix(raw) == raw && NulFree(BeforeNul(raw))
  {
    var s := host + NulSuffix(raw);
    if NulFree(host) {
      NulIndexIs(s, |host|);
    } else {
      var k :| 0 <= k < |host| && host[k] == 0;
      assert s[k] == 0;
      assert NulIndex(s) <= k;
    }
  }

  // ---------------------------------------------------------------- lens laws

  // The rewritten packet still fits a VarInt length.
  predicate Fits(buf: bytes, host: bytes) {
    Split(buf).Some? ==>
      var v := Split(buf).value;
      |Payload(v.(rawHost := host + NulSuffix(v.rawHost)))| < 0x8000_0000
  }

  // Put: the rewritten buffer has the new host in front of the old NUL suffix, and every other piece,
  // including all bytes after the packet, is untouched. It fails exactly when there is no handshake.
  lemma Put(buf: bytes, host: bytes)
    requires Fits(buf, host)
    ensures ReplaceMcHost(buf, host).Some? <==> Split(buf).Some?
    ensures Split(buf).Some? ==>
              var v := Split(buf).value;
              Split(ReplaceMcHost(buf, host).value) == Some(v.(rawHost := host + NulSuffix(v.rawHost)))
  {
    ReplaceIsBuild(buf, host);
    if Split(buf).Some? {
      var v := Split(buf).value;
      SplitHead(buf);
      SplitOfBuild(v.(rawHost := host + NulSuffix(v.rawHost)));
    }
  }

  // PutGet: parsing after a replace returns the new host exactly when that host has no NUL; the raw host
  // is the new host with the old suffix, and protocol version and next state stay.
  lemma PutGet(buf: bytes, host: bytes)
    requires Fits(buf, host) && Split(buf).Some? && NextState(Split(buf).value.tail).Some?
    ensures ReplaceMcHost(buf, host).Some?
    ensures var before, after := ParseHandshake(buf), ParseHandshake(ReplaceMcHost(buf, host).value);
            && (after.serverHost == host <==> NulFree(host))
            && after.rawServerHost == host + NulSuffix(before.rawServerHost)
            && after.protocolVersion == before.protocolVersion
            && after.nextState == before.nextState
  {
    Put(buf, host);
    ParseIsSplit(buf);
    ParseIsSplit(ReplaceMcHost(buf, host).value);
    GlueNul(host, Split(buf).value.rawHost);
  }

  // PutPut: a second replace forgets the first one exactly when the first host has no NUL.
  lemma PutPut(buf: bytes, first: bytes, second: bytes)
    requires Split(buf).Some? && Fits(buf, first) && Fits(buf, second)
    requires ReplaceMcHost(buf, first).Some? && Fits(ReplaceMcHost(buf, first).value, second)
    ensures ReplaceMcHost(ReplaceMcHost(buf, first).value, second) == ReplaceMcHost(buf, second) <==> NulFree(first)
  {
    var v := Split(buf).value;
    var once := ReplaceMcHost(buf, first).value;
    Put(buf, first);
    Put(buf, second);
    Put(once, second);
    GlueNul(first, v.rawHost);
    ReplaceIsBuild(once, second);
    ReplaceIsBuild(buf, second);
    if NulFree(first) {
      assert v.(rawHost := first + NulSuffix(v.rawHost)).(rawHost := second + NulSuffix(v.rawHost))
          == v.(rawHost := second + NulSuffix(v.rawHost));
    }
  }

  // Both length prefixes are spelled the way encodeVarInt spells them.
  predicate Canonical(buf: bytes)
    requires Split(buf).Some?
  {
    var packet := ReadPrefixed(buf).value;
    var v := Split(buf).value;
    var field := packet[|v.prefix|..];
    && buf[..ReadVarInt(buf).n] == Encode(|packet|)
    && field[..ReadVarInt(field).n] == Encode(|v.rawHost|)
  }

  lemma PrefixedParts(buf: bytes)
    requires ReadPrefixed(buf).Ok?
    ensures var r := ReadPrefixed(buf);
            ReadVarInt(buf).Ok? && buf == buf[..ReadVarInt(buf).n] + r.value + buf[r.n..]
  {
  }

  lemma SplitPacketField(packet: bytes, rest: bytes)
    requires SplitPacket(packet, rest).Some?
    ensures var v := SplitPacket(packet, rest).value;
            && |v.prefix| <= |packet| && v.rest == rest
            && var field := packet[|v.prefix|..];
               && ReadVarInt(field).Ok?
               && packet == v.prefix + field
               && field == field[..ReadVarInt(field).n] + v.rawHost + v.tail
  {
    hide ReadVarInt, ReadHead, ReadPrefixed;
    var n := ReadHead(packet).value.n;
    var field := packet[n..];
    PrefixedParts(field);
    Drop(packet, n, ReadPrefixed(field).n);
    assert packet == packet[..n] + field;
  }

  lemma SplitField(buf: bytes)
    requires Split(buf).Some?
    ensures var packet := ReadPrefixed(buf).value;
            var v := Split(buf).value;
            && |v.prefix| <= |packet|
            && var field := packet[|v.prefix|..];
               && ReadVarInt(buf).Ok? && ReadVarInt(field).Ok?
               && packet == v.prefix + field
               && field == field[..ReadVarInt(field).n] + v.rawHost + v.tail
               && buf == buf[..ReadVarInt(buf).n] + packet + v.rest
  {
    hide ReadVarInt, SplitPacket, ReadPrefixed;
    PrefixedParts(buf);
    SplitPacketField(ReadPrefixed(buf).value, buf[ReadPrefixed(buf).n..]);
  }

  // GetPut: replacing the host by itself is the identity exactly on canonically encoded packets.
  lemma GetPut(buf: bytes)
    requires Split(buf).Some? && |Payload(Split(buf).value)| < 0x8000_0000
    ensures ReplaceMcHost(buf, BeforeNul(Split(buf).value.rawHost)) == Some(buf) <==> Canonical(buf)
  {
    var v := Split(buf).value;
    var host := BeforeNul(v.rawHost);
    GlueNul(host, v.rawHost);
    ReplaceIsBuild(buf, host);
    assert v.(rawHost := host + NulSuffix(v.rawHost)) == v;
    SplitField(buf);
    if Canonical(buf) {
      CanonicalIsBuild(buf);
    }
    if Build(v) == buf {
      BuildIsCanonical(buf);
    }
  }

  lemma Reassemble(v: View, buf: bytes, packet: bytes, field: bytes)
    requires packet == v.prefix + field
    requires field == Encode(|v.rawHost|) + v.rawHost + v.tail
    requires buf == Encode(|packet|) + packet + v.rest
    ensures Build(v) == buf
  {
    hide Encode;
    assert field == Frame(v.rawHost) + v.tail;
    assert Payload(v) == packet;
  }

  lemma CanonicalIsBuild(buf: bytes)
    requires Split(buf).Some? && Canonical(buf)
    ensures Build(Split(buf).value) == buf
  {
    var packet := ReadPrefixed(buf).value;
    var v := Split(buf).value;
    hide ReadVarInt, ReadPrefixed, Encode, Split, Build;
    SplitField(buf);
    Reassemble(v, buf, packet, packet[|v.prefix|..]);
  }

  lemma BuildIsCanonical(buf: bytes)
    requires Split(buf).Some? && |Payload(Split(buf).value)| < 0x8000_0000
    requires Build(Split(buf).value) == buf
    ensures Canonical(buf)
  {
    hide ReadVarInt, ReadPrefixed, Encode, Split;
    var v := Split(buf).value;
    var payload := Payload(v);
    ReadFrame(payload, v.rest);
    FrontIsEncoding(buf, |payload|, payload + v.rest);
    var field := payload[|v.prefix|..];
    FrontIsEncoding(field, |v.rawHost|, v.rawHost + v.tail);
  }

  lemma FrontIsEncoding(s: bytes, length: nat, rest: bytes)
    requires s == Encode(length) + rest && length < 0x8000_0000
    ensures ReadVarInt(s) == Ok(length, |Encode(length)|) && s[..|Encode(length)|] == Encode(length)
  {
    RoundTrip(length, rest);
  }

  // The gateway rewrites only buffers whose host parsed as non-empty: then the rewrite succeeds.
  lemma ParsedHostCanBeReplaced(buf: bytes, host: bytes)
    requires ParseHandshake(buf).serverHost != []
    ensures ReplaceMcHost(buf, host).Some?
    ensures exists v: View :: Split(buf) == Some(v) && NextState(v.tail).Some?
  {
    hide ReadVarInt, ReadPrefixed, Encode, NulIndex;
    ParseIsSplit(buf);
    ReplaceIsBuild(buf, host);
  }

  // ---------------------------------------------------------------- status response

  // Framing of StatusResponsePacket: packet id 0 and one JSON string.
  function StatusResponsePacket(json: bytes): bytes {
    var payload := Encode(0) + Encode(|json|) + json;
    Encode(|payload|) + payload
  }

  lemma EncodeZero()
    ensures Encode(0) == [0]
  {
  }

  // The client reads back exactly one packet: id 0, then the JSON text and nothing else.
  lemma StatusResponseReads(json: bytes, rest: bytes)
    requires |Encode(0) + Encode(|json|) + json| < 0x8000_0000
    ensures var packet := ReadPrefixed(StatusResponsePacket(json) + rest);
            && packet.Ok? && packet.n == |StatusResponsePacket(json)|
            && ReadVarInt(packet.value) == Ok(0, 1)
            && ReadPrefixed(packet.value[1..]) == Ok(json, |packet.value| - 1)
  {
    hide ReadVarInt, ReadPrefixed, Encode;
    var payload := Encode(0) + Encode(|json|) + json;
    ReadFrame(payload, rest);
    EncodeZero();
    RoundTrip(0, Frame(json));
    assert payload == Encode(0) + Frame(json);
    ReadFrame(json, []);
    assert Frame(json) + [] == Frame(json) == payload[1..];
  }

  // ---------------------------------------------------------------- packets by their fields

  // A handshake packet as a client writes it: packet id, protocol version, host, port, next state.
  function HandshakePacketOf(version: nat, host: bytes, port: bytes, nextState: nat): bytes {
    Frame(Encode(0) + Encode(version) + Frame(host) + port + Encode(nextState))
  }

  lemma HeadOfFields(version: nat, rest: bytes)
    requires version < 0x8000_0000
    ensures ReadHead(Encode(0) + Encode(version) + rest) == Some(Head(version, |Encode(0)| + |Encode(version)|))
  {
    hide ReadVarInt, Encode;
    var packet := Encode(0) + Encode(version) + rest;
    assert packet == Encode(0) + (Encode(version) + rest);
    RoundTrip(0, Encode(version) + rest);
    RoundTrip(version, rest);
    assert packet[|Encode(0)|..] == Encode(version) + rest;
  }

  // Parsing such a packet gives the fields back: the version after the id, the host up to its first NUL,
  // and the next state after the two bytes of the port. Bytes behind the packet do not matter.
  lemma FieldsAreParsed(version: nat, host: bytes, port: bytes, nextState: nat, rest: bytes)
    requires version < 0x8000_0000 && nextState < 0x8000_0000 && |host| < 0x8000_0000 && |port| == 2
    requires |Encode(0) + Encode(version) + Frame(host) + port + Encode(nextState)| < 0x8000_0000
    ensures ParseHandshake(HandshakePacketOf(version, host, port, nextState) + rest)
         == Handshake(host, BeforeNul(host), version, nextState)
  {
    hide *;
    var front, tail := Encode(0) + Encode(version), port + Encode(nextState);
    var packet := Encode(0) + Encode(version) + Frame(host) + port + Encode(nextState);
    assert packet == front + (Frame(host) + tail);
    assert HandshakePacketOf(version, host, port, nextState) == Frame(packet) by {
      PacketOfFields(version, host, port, nextState);
    }
    ReadFrame(packet, rest);
    SplitOfFields(version, host, tail, rest);
    ParseIsSplit(Frame(packet) + rest);
    StateOfFields(port, nextState);
    SplitOfPacket(Frame(packet) + rest);
  }

  lemma PacketOfFields(version: nat, host: bytes, port: bytes, nextState: nat)
    ensures HandshakePacketOf(version, host, port, nextState)
         == Frame(Encode(0) + Encode(version) + Frame(host) + port + Encode(nextState))
  {
  }

  lemma SplitOfPacket(buf: bytes)
    requires ReadPrefixed(buf).Ok?
    ensures Split(buf) == SplitPacket(ReadPrefixed(buf).value, buf[ReadPrefixed(buf).n..])
  {
  }

  lemma StateOfFields(port: bytes, nextState: nat)
    requires |port| == 2 && nextState < 0x8000_0000
    ensures NextState(port + Encode(nextState)) == Some(nextState)
  {
    hide ReadVarInt, Encode;
    assert Encode(nextState) + [] == Encode(nextState);
    RoundTrip(nextState, []);
    assert (port + Encode(nextState))[2..] == Encode(nextState);
  }

  lemma SplitOfFields(version: nat, host: bytes, tail: bytes, rest: bytes)
    requires version < 0x8000_0000 && |host| < 0x8000_0000
    ensures var front := Encode(0) + Encode(version);
            SplitPacket(front + (Frame(host) + tail), rest) == Some(View(front, version, host, tail, rest))
  {
    hide ReadVarInt, Encode, ReadPrefixed, ReadHead, Frame;
    var front := Encode(0) + Encode(version);
    var packet := front + (Frame(host) + tail);
    HeadOfFields(version, Frame(host) + tail);
    assert packet[..|front|] == front && packet[|front|..] == Frame(host) + tail;
    ReadFrame(host, tail);
    assert packet[|front| + |Frame(host)|..] == tail;
  }

  // What is no handshake is neither parsed nor rewritten: an incomplete or empty packet, another packet
  // id; a packet that ends before its next state is not parsed.
  lemma OtherPacketsAreRefused(buf: bytes, host: bytes)
    ensures !ReadPrefixed(buf).Ok? || ReadPrefixed(buf).value == [] ==>
              ParseHandshake(buf) == ZERO && ReplaceMcHost(buf, host) == None
    ensures ReadPrefixed(buf).Ok? && !(ReadVarInt(ReadPrefixed(buf).value).Ok?
                                       && ReadVarInt(ReadPrefixed(buf).value).value == 0) ==>
              ParseHandshake(buf) == ZERO && ReplaceMcHost(buf, host) == None
    ensures Split(buf).Some? && |Split(buf).value.tail| < 3 ==> ParseHandshake(buf) == ZERO
  {
    ParseIsSplit(buf);
  }

  // The host ends before the first NUL byte, and the suffix starts with it.
  lemma HostEndsAtNul(raw: bytes)
    ensures raw == BeforeNul(raw) + NulSuffix(raw) && NulFree(BeforeNul(raw))
    ensures NulSuffix(raw) == [] || NulSuffix(raw)[0] == 0
  {
  }
}

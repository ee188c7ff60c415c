// Minecraft VarInts and length-prefixed packets: unsigned LEB128 (section 7.6 of DWARF 5), at most 5
// bytes, with the decoded value truncated to a 32-bit two's complement integer.
module VarInt {
  import opened Common
  import opened Words

  datatype Read<+T> = Ok(value: T, n: nat) | Incomplete | TooLong

  // 128 to the power i.
  function Pow128(i: nat): (p: nat)
    ensures p > 0
  {
    if i == 0 then 1 else 128 * Pow128(i - 1)
  }

  // LEB128 with at most k bytes, before truncation.
  function Leb(buf: bytes, k: nat): (r: Read<nat>)
    ensures r.Ok? ==> 0 < r.n <= |buf| && r.n <= k
  {
    if k == 0 then TooLong
    else if buf == [] then Incomplete
    else if buf[0] < 128 then Ok(buf[0] as nat, 1)
    else
      match Leb(buf[1..], k - 1)
      case Ok(v, n) => Ok((buf[0] as nat - 128) + 128 * v, n + 1)
      case failure => failure
  }

  // int(int32(uint32(value))).
  function ToInt32(v: nat): (r: int)
    ensures -0x8000_0000 <= r < 0x8000_0000
  {
    var low := v % 0x1_0000_0000;
    if low < 0x8000_0000 then low else low - 0x1_0000_0000
  }

  lemma ToInt32Keeps(v: nat)
    ensures ToInt32(v) == v <==> v < 0x8000_0000
  {
  }

  function ReadVarInt(buf: bytes): (r: Read<int>)
    ensures r.Ok? ==> 0 < r.n <= |buf| && r.n <= 5
  {
    match Leb(buf, 5)
    case Ok(v, n) => Ok(ToInt32(v), n)
    case Incomplete => Incomplete
    case TooLong => TooLong
  }

  function Encode(v: nat): (out: bytes)
    ensures out != []
  {
    if v < 128 then [v as byte] else [(v % 128 + 128) as byte] + Encode(v / 128)
  }

  // ---------------------------------------------------------------- the loops

  // A reading that continues i groups after one that already holds value.
  function Shifted(value: nat, i: nat, r: Read<nat>): Read<nat> {
    match r
    case Ok(v, n) => Ok(value + v * Pow128(i), i + n)
    case failure => failure
  }

  lemma GroupBelow(group: nat, p: nat)
    requires group < 128
    ensures group * p <= 127 * p
  {
  }

  lemma Distribute(group: nat, v: nat, p: nat)
    ensures (group + 128 * v) * p == group * p + v * (128 * p)
  {
  }

  lemma ShiftOne(value: nat, i: nat, group: nat, r: Read<nat>)
    requires value < Pow128(i) && group < 128
    ensures value + group * Pow128(i) < Pow128(i + 1)
    ensures Shifted(value + group * Pow128(i), i + 1, r)
         == Shifted(value, i, match r case Ok(v, n) => Ok(group + 128 * v, n + 1) case failure => failure)
  {
    var p := Pow128(i);
    assert Pow128(i + 1) == 128 * p;
    hide Pow128;
    GroupBelow(group, p);
    if r.Ok? {
      Distribute(group, r.value, p);
    }
  }

  // The low seven bits of a byte.
  function Group(b: byte): nat {
    b as nat % 128
  }

  // The group of byte i of an encoding: int(b&0x7f) << (7*i).
  function Place(b: byte, i: nat): nat {
    Group(b) * Pow128(i)
  }

  lemma LebStep(value: nat, i: nat, buf: bytes)
    requires i < 5 && i < |buf| && value < Pow128(i)
    ensures value + Place(buf[i], i) < Pow128(i + 1)
    ensures Shifted(value, i, Leb(buf[i..], 5 - i))
         == if buf[i] < 128 then Ok(value + Place(buf[i], i), i + 1)
            else Shifted(value + Place(buf[i], i), i + 1, Leb(buf[i + 1..], 5 - i - 1))
  {
    assert buf[i..][0] == buf[i] && buf[i..][1..] == buf[i + 1..];
    ShiftOne(value, i, Group(buf[i]), Leb(buf[i + 1..], 5 - i - 1));
  }

  // The groups gathered before byte i leave the higher bits clear.
  predicate Below(value: word, i: nat) {
    match i
    case 0 => value == 0
    case 1 => value < 0x80
    case 2 => value < 0x4000
    case 3 => value < 0x20_0000
    case 4 => value < 0x1000_0000
    case _ => value < 0x8_0000_0000
  }

  // group << (7*i), for the places of a VarInt.
  function ShiftedTo(group: word, i: nat): word
    requires i < 5
  {
    match i
    case 0 => group
    case 1 => group << 7
    case 2 => group << 14
    case 3 => group << 21
    case _ => group << 28
  }

  lemma ShiftedToStep(group: word, i: nat)
    requires group < 128 && 0 < i < 5
    ensures ShiftedTo(group, i) == Shl7(ShiftedTo(group, i - 1)) && TopGroupClear(ShiftedTo(group, i - 1))
  {
  }

  lemma {:induction false} ShiftedToNum(group: word, i: nat)
    requires group < 128 && i < 5
    ensures Num(ShiftedTo(group, i)) == Num(group) * Pow128(i)
  {
    hide Num, Shl7, TopGroupClear;
    if i == 0 {
      assert ShiftedTo(group, 0) == group;
    } else {
      hide ShiftedTo;
      ShiftedToStep(group, i);
      Shl7Num(ShiftedTo(group, i - 1));
      ShiftedToNum(group, i - 1);
      assert Num(group) * Pow128(i) == 128 * (Num(group) * Pow128(i - 1));
    }
  }

  lemma GroupsStayApart(value: word, group: word, i: nat)
    requires group < 128 && i < 5 && Below(value, i)
    ensures Disjoint(value, ShiftedTo(group, i)) && Below(Or(value, ShiftedTo(group, i)), i + 1)
  {
  }

  // value |= int(b&0x7f) << (7*i) adds the group of byte b at place i.
  lemma OrAddsPlace(value: word, b: byte, i: nat)
    requires i < 5 && Below(value, i)
    ensures Num(Or(value, ShiftedTo(GroupOf(b), i))) == Num(value) + Place(b, i)
    ensures Below(Or(value, ShiftedTo(GroupOf(b), i)), i + 1)
  {
    hide ShiftedTo, Or, Disjoint, Below, Num, GroupOf;
    GroupOfNum(b);
    GroupsStayApart(value, GroupOf(b), i);
    OrAdds(value, ShiftedTo(GroupOf(b), i));
    ShiftedToNum(GroupOf(b), i);
  }

  // The loop of readVarInt.
  method ReadVarIntLoop(buf: bytes) returns (r: Read<int>)
    ensures r == ReadVarInt(buf)
  {
    hide ShiftedTo, Or, Below, GroupOf, Continues, Num, Place;
    var value: word := 0;
    var i := 0;
    assert buf[0..] == buf;
    NothingGathered();
    while i < 5
      invariant 0 <= i <= 5 && i <= |buf|
      invariant Below(value, i) && Num(value) < Pow128(i)
      invariant Leb(buf, 5) == Shifted(Num(value), i, Leb(buf[i..], 5 - i))
    {
      if i >= |buf| {
        return Incomplete;
      }
      var b := buf[i];
      LebStep(Num(value), i, buf);
      OrAddsPlace(value, b, i);
      GroupOfNum(b);
      value := Or(value, ShiftedTo(GroupOf(b), i));
      if !Continues(b) {
        return Ok(ToInt32(Num(value)), i + 1);
      }
      i := i + 1;
    }
    return TooLong;
  }

  lemma NothingGathered()
    ensures Below(0, 0) && Num(0) == 0
  {
  }

  lemma IsZero(x: word)
    ensures x == 0 <==> Num(x) == 0
  {
  }

  // One turn of the loop writes the first byte of the encoding and goes on with the rest.
  lemma EncodeStep(value: word)
    ensures Shr7(value) == 0 ==> Encode(Num(value)) == [LowByte(value)]
    ensures Shr7(value) != 0 ==>
              && Encode(Num(value)) == [Continued(LowByte(value))] + Encode(Num(Shr7(value)))
              && Num(Shr7(value)) < Num(value)
  {
    hide Shr7, Low7, LowByte, Continued, Num;
    SplitGroup(value);
    LowByteNum(value);
    ContinuedNum(LowByte(value));
    IsZero(Shr7(value));
  }

  // The loop of encodeVarInt, for an int that is not negative. (A negative one would never reach 0.)
  method EncodeVarIntLoop(length: word) returns (out: bytes)
    requires TopBitClear(length)
    ensures out == Encode(Num(length))
  {
    hide Shr7, LowByte, Continued, Num, TopBitClear, Encode;
    out := [];
    var value := length;
    while true
      invariant Encode(Num(length)) == out + Encode(Num(value))
      decreases Num(value)
    {
      EncodeStep(value);
      var b := LowByte(value);
      value := Shr7(value);
      if value != 0 {
        b := Continued(b);
      }
      out := out + [b];
      if value == 0 {
        return;
      }
    }
  }

  // ---------------------------------------------------------------- by position

  // The first n bytes continue, and the groups of i bytes add up to this.
  predicate Continue(buf: bytes, n: nat) {
    n <= |buf| && forall j :: 0 <= j < n ==> buf[j] >= 128
  }

  function GroupSum(buf: bytes, i: nat): nat
    requires i <= |buf|
  {
    if i == 0 then 0 else GroupSum(buf, i - 1) + (buf[i - 1] as nat % 128) * Pow128(i - 1)
  }

  lemma {:induction false} GroupSumFront(buf: bytes, i: nat)
    requires 0 < i <= |buf|
    ensures GroupSum(buf, i) == buf[0] as nat % 128 + 128 * GroupSum(buf[1..], i - 1)
  {
    if i > 1 {
      GroupSumFront(buf, i - 1);
      assert buf[1..][i - 2] == buf[i - 1];
      var g := buf[i - 1] as nat % 128;
      assert g * Pow128(i - 1) == 128 * (g * Pow128(i - 2));
    } else {
      assert GroupSum(buf, 0) == 0 && Pow128(0) == 1;
    }
  }

  lemma ContinueFront(buf: bytes, n: nat)
    requires 0 < n <= |buf|
    ensures Continue(buf, n) <==> buf[0] >= 128 && Continue(buf[1..], n - 1)
  {
    assert forall j :: 0 < j < n ==> buf[j] == buf[1..][j - 1];
    assert forall j :: 0 <= j < n - 1 ==> buf[1..][j] == buf[j + 1];
  }

  // A reading ends with the first byte that does not continue; it is incomplete when all bytes continue
  // and fewer than k are there, and too long when k of them continue. (The three exclude one another.)
  lemma {:induction false} LebByPosition(buf: bytes, k: nat)
    ensures match Leb(buf, k)
            case Ok(v, n) => 0 < n <= k && n <= |buf| && Continue(buf, n - 1) && buf[n - 1] < 128
                             && v == GroupSum(buf, n)
            case Incomplete => |buf| < k && Continue(buf, |buf|)
            case TooLong => k <= |buf| && Continue(buf, k)
    decreases k
  {
    hide GroupSum, Continue, Pow128;
    if k == 0 {
      NoneContinue(buf);
    } else if buf == [] {
      NoneContinue(buf);
    } else if buf[0] < 128 {
      NoneContinue(buf);
      OneGroup(buf);
    } else {
      LebByPosition(buf[1..], k - 1);
      match Leb(buf[1..], k - 1)
      case Ok(v, n) =>
        ContinueFront(buf, n);
        GroupSumFront(buf, n + 1);
      case Incomplete => ContinueFront(buf, |buf|);
      case TooLong => ContinueFront(buf, k);
    }
  }

  lemma NoneContinue(buf: bytes)
    ensures Continue(buf, 0)
  {
  }

  lemma OneGroup(buf: bytes)
    requires buf != [] && buf[0] < 128
    ensures GroupSum(buf, 1) == buf[0] as nat
  {
    assert GroupSum(buf, 0) == 0 && Pow128(0) == 1;
  }

  // What readVarInt returns: the groups' sum as a signed 32-bit number, or which error.
  lemma ReadVarIntByPosition(buf: bytes)
    ensures ReadVarInt(buf).Ok? ==>
              var v, n := GroupSum(buf, ReadVarInt(buf).n), ReadVarInt(buf).n;
              && n <= 5 && Continue(buf, n - 1) && buf[n - 1] < 128
              && -0x8000_0000 <= ReadVarInt(buf).value < 0x8000_0000
              && (ReadVarInt(buf).value - v) % 0x1_0000_0000 == 0
    ensures ReadVarInt(buf).TooLong? ==> 5 <= |buf| && Continue(buf, 5)
    ensures ReadVarInt(buf).Incomplete? ==> |buf| < 5 && Continue(buf, |buf|)
  {
    hide Leb, GroupSum, Continue, ToInt32;
    LebByPosition(buf, 5);
    if Leb(buf, 5).Ok? {
      ToInt32Wraps(Leb(buf, 5).value);
    }
  }

  lemma ToInt32Wraps(v: nat)
    ensures -0x8000_0000 <= ToInt32(v) < 0x8000_0000 && (ToInt32(v) - v) % 0x1_0000_0000 == 0
  {
  }

  // readPacket and readString: the prefix, then exactly that many bytes; a negative length or too few
  // bytes are an incomplete packet.
  lemma ReadPrefixedByPosition(buf: bytes)
    ensures var length := ReadVarInt(buf);
            ReadPrefixed(buf).Ok? <==> length.Ok? && 0 <= length.value <= |buf| - length.n
    ensures ReadPrefixed(buf).Ok? ==>
              var length := ReadVarInt(buf);
              && ReadPrefixed(buf).n == length.n + length.value
              && ReadPrefixed(buf).value == buf[length.n..length.n + length.value]
    ensures ReadVarInt(buf).Ok? && !ReadPrefixed(buf).Ok? ==> ReadPrefixed(buf).Incomplete?
  {
  }

  // ---------------------------------------------------------------- round trip

  lemma {:induction false} LebOfEncode(v: nat, rest: bytes, k: nat)
    ensures Leb(Encode(v) + rest, k) == if k > 0 && v < Pow128(k) then Ok(v, |Encode(v)|) else TooLong
    decreases k
  {
    var s := Encode(v) + rest;
    if k > 0 && v >= 128 {
      assert s[0] == (v % 128 + 128) as byte && s[1..] == Encode(v / 128) + rest;
      LebOfEncode(v / 128, rest, k - 1);
      assert v / 128 < Pow128(k - 1) <==> v < Pow128(k);
    }
  }

  lemma {:induction false} EncodeLength(v: nat, k: nat)
    ensures |Encode(v)| <= k <==> k > 0 && v < Pow128(k)
    decreases k
  {
    if k > 0 && v >= 128 {
      EncodeLength(v / 128, k - 1);
      assert v / 128 < Pow128(k - 1) <==> v < Pow128(k);
    }
  }

  lemma Pow128Values()
    ensures Pow128(1) == 0x80 && Pow128(4) == 0x1000_0000 && Pow128(5) == 0x8_0000_0000
  {
    assert Pow128(2) == 0x4000 && Pow128(3) == 0x20_0000;
  }

  // Decoding an encoding, whatever follows it, gives the value back exactly below 2^31.
  lemma RoundTrip(v: nat, rest: bytes)
    ensures ReadVarInt(Encode(v) + rest) == Ok(v, |Encode(v)|) <==> v < 0x8000_0000
    ensures v < 0x8000_0000 ==> |Encode(v)| <= 5
  {
    LebOfEncode(v, rest, 5);
    EncodeLength(v, 5);
    Pow128Values();
  }

  // A successful reading depends only on the bytes it consumed.
  lemma {:induction false} LebStable(buf: bytes, rest: bytes, k: nat)
    requires Leb(buf, k).Ok?
    ensures Leb(buf + rest, k) == Leb(buf, k) == Leb(buf[..Leb(buf, k).n], k)
  {
    if buf[0] >= 128 {
      var n := Leb(buf, k).n;
      assert (buf + rest)[1..] == buf[1..] + rest;
      assert buf[..n][1..] == buf[1..][..n - 1];
      LebStable(buf[1..], rest, k - 1);
    }
  }

  lemma ReadVarIntStable(buf: bytes, rest: bytes)
    requires ReadVarInt(buf).Ok?
    ensures ReadVarInt(buf + rest) == ReadVarInt(buf) == ReadVarInt(buf[..ReadVarInt(buf).n])
  {
    LebStable(buf, rest, 5);
  }

  lemma {:induction false} LebBound(buf: bytes, k: nat)
    requires Leb(buf, k).Ok?
    ensures Leb(buf, k).value < Pow128(Leb(buf, k).n)
  {
    if buf[0] >= 128 {
      LebBound(buf[1..], k - 1);
    }
  }

  // No accepted spelling of a length is shorter than its encoding.
  lemma EncodeIsShortest(buf: bytes)
    requires ReadVarInt(buf).Ok? && ReadVarInt(buf).value >= 0
    ensures |Encode(ReadVarInt(buf).value)| <= ReadVarInt(buf).n
  {
    var v, n := Leb(buf, 5).value, Leb(buf, 5).n;
    LebBound(buf, 5);
    hide Leb, Encode, Pow128;
    Pow128Values();
    if n < 5 {
      Pow128Monotone(n, 4);
      assert ToInt32(v) == v;
    }
    EncodeLength(ToInt32(v), n);
  }

  lemma {:induction false} Pow128Monotone(i: nat, j: nat)
    requires i <= j
    ensures Pow128(i) <= Pow128(j)
    decreases j
  {
    if i < j {
      Pow128Monotone(i, j - 1);
    }
  }

  // ---------------------------------------------------------------- packets and strings

  // Length-prefixed payload (readPacket and readString); n counts the prefix too.
  function ReadPrefixed(buf: bytes): (r: Read<bytes>)
    ensures r.Ok? ==> 0 < r.n <= |buf| && |r.value| < r.n && r.value == buf[r.n - |r.value|..r.n]
  {
    match ReadVarInt(buf)
    case Ok(length, n) =>
      if length < 0 || |buf[n..]| < length then Incomplete
      else Ok(buf[n..n + length], n + length)
    case Incomplete => Incomplete
    case TooLong => TooLong
  }

  function Frame(payload: bytes): bytes {
    Encode(|payload|) + payload
  }

  lemma ReadFrame(payload: bytes, rest: bytes)
    requires |payload| < 0x8000_0000
    ensures ReadPrefixed(Frame(payload) + rest) == Ok(payload, |Frame(payload)|)
  {
    var n := |Encode(|payload|)|;
    var s := Frame(payload) + rest;
    assert s == Encode(|payload|) + (payload + rest);
    RoundTrip(|payload|, payload + rest);
    assert s[n..n + |payload|] == payload;
  }

  lemma ReadPrefixedStable(buf: bytes, rest: bytes)
    requires ReadPrefixed(buf).Ok?
    ensures ReadPrefixed(buf + rest) == ReadPrefixed(buf) == ReadPrefixed(buf[..ReadPrefixed(buf).n])
  {
    var r := ReadPrefixed(buf);
    var v := ReadVarInt(buf);
    ReadVarIntStable(buf, rest);
    assert buf == buf[..r.n] + buf[r.n..];
    ReadVarIntStable(buf[..v.n], buf[v.n..r.n]);
    assert buf[..v.n] + buf[v.n..r.n] == buf[..r.n];
    assert (buf + rest)[v.n..r.n] == buf[v.n..r.n] == buf[..r.n][v.n..r.n];
  }

  function FrameAll(payloads: seq<bytes>): bytes {
    if payloads == [] then [] else Frame(payloads[0]) + FrameAll(payloads[1..])
  }

  // Repeated readPacket until the buffer holds no further complete packet.
  function ReadAll(buf: bytes): (seq<bytes>, bytes)
    decreases |buf|
  {
    match ReadPrefixed(buf)
    case Ok(payload, n) => var (others, rest) := ReadAll(buf[n..]); ([payload] + others, rest)
    case _ => ([], buf)
  }

  lemma ReadAllStep(payload: bytes, rest: bytes, s: bytes)
    requires s == Frame(payload) + rest && ReadPrefixed(s) == Ok(payload, |Frame(payload)|)
    ensures ReadAll(s) == ([payload] + ReadAll(rest).0, ReadAll(rest).1)
  {
    assert s[|Frame(payload)|..] == rest;
  }

  // Any list of framed packets is recovered by repeated readPacket, up to a tail that is no packet.
  lemma {:induction false} PacketsRecovered(payloads: seq<bytes>, tail: bytes)
    requires forall i :: 0 <= i < |payloads| ==> |payloads[i]| < 0x8000_0000
    requires !ReadPrefixed(tail).Ok?
    ensures ReadAll(FrameAll(payloads) + tail) == (payloads, tail)
    decreases |payloads|
  {
    hide ReadPrefixed, Frame;
    if payloads == [] {
      assert FrameAll(payloads) + tail == tail;
    } else {
      var first, others := Frame(payloads[0]), FrameAll(payloads[1..]);
      var rest, s := others + tail, FrameAll(payloads) + tail;
      assert s == first + others + tail == first + rest;
      ReadFrame(payloads[0], rest);
      PacketsRecovered(payloads[1..], tail);
      ReadAllStep(payloads[0], rest, s);
      assert [payloads[0]] + payloads[1..] == payloads;
    }
  }
}

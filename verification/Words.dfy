// 64-bit words: what and, or and the shifts of VarInts mean for the numbers that the words stand for.
module Words {
  import opened Common

  // The bits of a Go int that is not negative, or of a uint64.
  type word = bv64

  function Num(x: word): nat {
    x as nat
  }

  // ---------------------------------------------------------------- bit by bit

  function Half(x: word): word {
    x >> 1
  }

  function Twice(x: word): word {
    x << 1
  }

  function TwiceAndOne(x: word): word {
    (x << 1) | 1
  }

  predicate Odd(x: word) {
    x & 1 == 1
  }

  predicate TopBitClear(x: word) {
    x < 0x8000_0000_0000_0000
  }

  function Or(x: word, y: word): word {
    x | y
  }

  predicate Disjoint(x: word, y: word) {
    x & y == 0
  }

  lemma TwiceNum(x: word)
    requires TopBitClear(x)
    ensures Num(Twice(x)) == 2 * Num(x)
  {
  }

  lemma TwiceAndOneNum(x: word)
    requires TopBitClear(x)
    ensures Num(TwiceAndOne(x)) == Num(Twice(x)) + 1
  {
  }

  lemma Rejoin(x: word)
    ensures TopBitClear(Half(x))
    ensures x == if Odd(x) then TwiceAndOne(Half(x)) else Twice(Half(x))
  {
  }

  lemma LastBit(x: word)
    ensures Num(x) == 2 * Num(Half(x)) + (if Odd(x) then 1 else 0)
  {
    hide *;
    Rejoin(x);
    TwiceNum(Half(x));
    TwiceAndOneNum(Half(x));
  }

  lemma OrBits(x: word, y: word)
    requires Disjoint(x, y)
    ensures Disjoint(Half(x), Half(y)) && Half(Or(x, y)) == Or(Half(x), Half(y))
    ensures Odd(Or(x, y)) <==> Odd(x) || Odd(y)
    ensures !(Odd(x) && Odd(y))
  {
  }

  lemma OrZero(x: word, y: word)
    requires Num(x) == 0
    ensures Or(x, y) == y
  {
    assert x == 0;
  }

  // The or of words without a common bit is their sum.
  lemma {:induction false} OrAdds(x: word, y: word)
    requires Disjoint(x, y)
    ensures Num(Or(x, y)) == Num(x) + Num(y)
    decreases Num(x)
  {
    hide *;
    if Num(x) == 0 {
      OrZero(x, y);
    } else {
      LastBit(x);
      OrBits(x, y);
      OrAdds(Half(x), Half(y));
      LastBit(y);
      LastBit(Or(x, y));
    }
  }

  // ---------------------------------------------------------------- groups of seven bits

  function Low7(x: word): word {
    x & 0x7f
  }

  function Shr7(x: word): word {
    x >> 7
  }

  function Shl7(x: word): word {
    x << 7
  }

  predicate TopGroupClear(x: word) {
    x < 0x0200_0000_0000_0000
  }

  lemma Shl7Num(x: word)
    requires TopGroupClear(x)
    ensures Num(Shl7(x)) == 128 * Num(x)
  {
  }

  lemma RejoinGroup(x: word)
    ensures TopGroupClear(Shr7(x))
    ensures Disjoint(Shl7(Shr7(x)), Low7(x)) && x == Or(Shl7(Shr7(x)), Low7(x))
  {
  }

  lemma Low7Num(x: word)
    ensures Num(Low7(x)) < 128
  {
  }

  // The mask is the remainder and the right shift the quotient by 128.
  lemma SplitGroup(x: word)
    ensures Num(Shr7(x)) == Num(x) / 128 && Num(Low7(x)) == Num(x) % 128
  {
    hide *;
    RejoinGroup(x);
    OrAdds(Shl7(Shr7(x)), Low7(x));
    Shl7Num(Shr7(x));
    Low7Num(x);
  }

  lemma TwiceByte(x: bv8)
    requires x < 128
    ensures (x << 1) as nat == 2 * (x as nat) && ((x << 1) | 1) as nat == 2 * (x as nat) + 1
  {
  }

  lemma SmallByte(x: bv8)
    ensures x < 128 <==> x as nat < 128
  {
  }

  // The bits of a byte, from its binary digits.
  function Bits(b: byte): (x: bv8)
    ensures x as nat == b as nat
    decreases b
  {
    if b == 0 then 0
    else
      var half := Bits(b / 2);
      SmallByte(half);
      TwiceByte(half);
      if b % 2 == 0 then half << 1 else (half << 1) | 1
  }

  // int(b&0x7f).
  function GroupOf(b: byte): word {
    (Bits(b) & 0x7f) as word
  }

  predicate Continues(b: byte) {
    Bits(b) & 0x80 != 0
  }

  lemma MaskedByte(x: bv8)
    ensures (x & 0x7f) as nat == x as nat % 128
  {
  }

  lemma HighBit(x: bv8)
    ensures x & 0x80 != 0 <==> x as nat >= 128
  {
  }

  lemma WidenGroup(x: bv8)
    ensures Num((x & 0x7f) as word) == (x & 0x7f) as nat && (x & 0x7f) as word < 128
  {
  }

  lemma GroupOfNum(b: byte)
    ensures Num(GroupOf(b)) == b as nat % 128 && GroupOf(b) < 128
    ensures Continues(b) <==> b >= 128
  {
    hide Num, Bits;
    MaskedByte(Bits(b));
    HighBit(Bits(b));
    WidenGroup(Bits(b));
  }

  // byte(x&0x7f).
  function LowByte(x: word): byte {
    Low7IsByte(x);
    (Low7(x) as bv8) as byte
  }

  lemma Low7IsByte(x: word)
    ensures Low7(x) < 256
  {
  }

  // b | 0x80.
  function Continued(b: byte): byte {
    (Bits(b) | 0x80) as byte
  }

  lemma LowByteNum(x: word)
    ensures LowByte(x) as nat == Num(Low7(x)) && LowByte(x) < 128
  {
  }

  lemma SetHighBit(x: bv8)
    requires x as nat < 128
    ensures (x | 0x80) as nat == x as nat + 128
  {
  }

  lemma ContinuedNum(b: byte)
    requires b < 128
    ensures Continued(b) == b + 128
  {
    hide Bits;
    SetHighBit(Bits(b));
  }
}

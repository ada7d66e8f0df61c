/**
 * The Ogg page checksum: the table-driven loop of the recorder against polynomial
 * division over GF(2) by x^32 + 0x04C11DB7 with a zero register (RFC 3533, section 6).
 *
 * A 32-bit number under the operators ^, << and >>> is modelled by its 32 bits, highest first.
 */
module OggCrc {
  import opened Bytes

  type Word = x: seq<bool> | |x| == 32 witness Zeros(32)

  // ---------------------------------------------------------------- bits

  function Zeros(n: nat): (z: seq<bool>)
    ensures |z| == n
  {
    seq(n, _ => false)
  }

  function Xor(a: seq<bool>, b: seq<bool>): (c: seq<bool>)
    requires |a| == |b|
    ensures |c| == |a|
  {
    seq(|a|, i requires 0 <= i < |a| => a[i] != b[i])
  }

  function ShiftLeft(a: Word, n: nat): Word
    requires n <= 32
  {
    a[n..] + Zeros(n)
  }

  /** The `width` low-order bits of n, highest first. */
  function BitsOf(n: nat, width: nat): (x: seq<bool>)
    ensures |x| == width
  {
    if width == 0 then [] else BitsOf(n / 2, width - 1) + [n % 2 == 1]
  }

  function Value(x: seq<bool>): nat {
    if x == [] then 0 else 2 * Value(x[..|x| - 1]) + (if x[|x| - 1] then 1 else 0)
  }

  function Power2(n: nat): (p: nat)
    ensures p > 0
  {
    if n == 0 then 1 else 2 * Power2(n - 1)
  }

  lemma {:induction false} BitsOfValue(x: seq<bool>)
    ensures BitsOf(Value(x), |x|) == x
    ensures Value(x) < Power2(|x|)
  {
    if x != [] {
      BitsOfValue(x[..|x| - 1]);
    }
  }

  lemma {:induction false} ValueOfBits(n: nat, width: nat)
    requires n < Power2(width)
    ensures Value(BitsOf(n, width)) == n
  {
    if width > 0 {
      ValueOfBits(n / 2, width - 1);
      assert BitsOf(n, width)[..width - 1] == BitsOf(n / 2, width - 1);
    }
  }

  const POLYNOMIAL: Word := BitsOf(0x04C11DB7, 32)

  // ---------------------------------------------------------------- polynomial division

  /** Multiply a remainder by x, subtracting the divisor when the degree reaches 32. */
  function Shift(r: Word): Word {
    if r[0] then Xor(ShiftLeft(r, 1), POLYNOMIAL) else ShiftLeft(r, 1)
  }

  function ShiftN(r: Word, n: nat): Word
    decreases n
  {
    if n == 0 then r else ShiftN(Shift(r), n - 1)
  }

  /** The constant polynomial 0 or 1. */
  function Constant(b: bool): Word { Zeros(31) + [b] }

  /** Long division: bring the dividend's coefficients down one at a time, highest first. */
  function Divide(r: Word, bits: seq<bool>): Word
    decreases |bits|
  {
    if bits == [] then r else Divide(Xor(Shift(r), Constant(bits[0])), bits[1..])
  }

  function Bits(data: seq<byte>): (x: seq<bool>)
    ensures |x| == 8 * |data|
  {
    if data == [] then [] else Bits(data[..|data| - 1]) + BitsOf(data[|data| - 1], 8)
  }

  /** The checksum: the remainder of the message followed by 32 zero coefficients. */
  function Crc(data: seq<byte>): Word {
    Divide(Zeros(32), Bits(data) + Zeros(32))
  }

  // ---------------------------------------------------------------- the table and the loop

  function TableEntry(i: byte): Word { ShiftN(BitsOf(i, 8) + Zeros(24), 8) }

  ghost predicate IsCrcTable(table: seq<Word>) {
    |table| == 256 && forall i: byte :: table[i] == TableEntry(i)
  }

  lemma ShiftNStep(r: Word, n: nat)
    ensures ShiftN(r, 0) == r
    ensures n > 0 ==> ShiftN(r, n) == ShiftN(if r[0] then Xor(ShiftLeft(r, 1), POLYNOMIAL) else ShiftLeft(r, 1), n - 1)
  {
    hide Xor, ShiftLeft, BitsOf;
  }

  method BuildEntry(i: byte) returns (r: Word)
    ensures r == TableEntry(i)
  {
    hide Xor, ShiftLeft, BitsOf, ShiftN;
    r := BitsOf(i, 8) + Zeros(24);
    for j := 0 to 8
      invariant ShiftN(r, 8 - j) == TableEntry(i)
    {
      ShiftNStep(r, 8 - j);
      if r[0] {
        r := Xor(ShiftLeft(r, 1), POLYNOMIAL);
      } else {
        r := ShiftLeft(r, 1);
      }
    }
    ShiftNStep(r, 0);
  }

  method BuildTable() returns (table: seq<Word>)
    ensures IsCrcTable(table)
  {
    hide TableEntry;
    table := [];
    for i := 0 to 256
      invariant |table| == i
      invariant forall k: byte :: k < i ==> table[k] == TableEntry(k)
    {
      var r := BuildEntry(i);
      table := table + [r];
    }
  }

  method OggCrc32(table: seq<Word>, data: seq<byte>) returns (crc: Word)
    requires IsCrcTable(table)
    ensures crc == Crc(data)
  {
    hide Crc, TableEntry, BitsOf, Xor, ShiftLeft;
    crc := Zeros(32);
    EmptyCrc();
    for i := 0 to |data|
      invariant crc == Crc(data[..i])
    {
      var index := Value(Xor(crc[..8], BitsOf(data[i], 8)));
      TableStep(crc, data[i]);
      CrcAppend(data[..i], data[i]);
      assert data[..i + 1] == data[..i] + [data[i]];
      crc := Xor(ShiftLeft(crc, 8), table[index]);
    }
    assert data[..|data|] == data;
  }

  // ---------------------------------------------------------------- linearity

  lemma ShiftLinear(a: Word, b: Word)
    ensures Shift(Xor(a, b)) == Xor(Shift(a), Shift(b))
  {
    ShiftBits(a); ShiftBits(b); ShiftBits(Xor(a, b));
  }

  /** Every coefficient after one shift, without the case distinction. */
  lemma ShiftBits(r: Word)
    ensures forall i :: 0 <= i < 32 ==> Shift(r)[i] == ((i < 31 && r[i + 1]) != (r[0] && POLYNOMIAL[i]))
  {
  }

  lemma {:induction false} ShiftNLinear(a: Word, b: Word, n: nat)
    ensures ShiftN(Xor(a, b), n) == Xor(ShiftN(a, n), ShiftN(b, n))
    decreases n
  {
    if n > 0 {
      ShiftLinear(a, b);
      ShiftNLinear(Shift(a), Shift(b), n - 1);
    }
  }

  lemma {:induction false} ShiftNAdd(r: Word, m: nat, n: nat)
    ensures ShiftN(r, m + n) == ShiftN(ShiftN(r, m), n)
    decreases m
  {
    if m > 0 {
      ShiftNAdd(Shift(r), m - 1, n);
    }
  }

  /** While only zeros leave the top of the register, shifting is plain shifting. */
  lemma {:induction false} ShiftNSmall(r: Word, n: nat)
    requires n <= 32 && r[..n] == Zeros(n)
    ensures ShiftN(r, n) == ShiftLeft(r, n)
    decreases n
  {
    if n == 0 {
      assert ShiftLeft(r, 0) == r;
    } else {
      assert !r[0] by { assert r[..n][0] == Zeros(n)[0]; }
      var s := ShiftLeft(r, 1);
      assert forall i :: 0 <= i < n - 1 ==> s[i] == r[..n][i + 1];
      assert s[..n - 1] == Zeros(n - 1);
      ShiftNSmall(s, n - 1);
      assert ShiftLeft(s, n - 1) == ShiftLeft(r, n);
    }
  }

  /** One round of the loop: put the byte at the top of the register and shift eight times. */
  lemma TableStep(crc: Word, b: byte)
    ensures var index := Value(Xor(crc[..8], BitsOf(b, 8)));
      index < 256 && Xor(ShiftLeft(crc, 8), TableEntry(index)) == ShiftN(Xor(crc, BitsOf(b, 8) + Zeros(24)), 8)
  {
    var top := Xor(crc[..8], BitsOf(b, 8));
    BitsOfValue(top);
    assert Power2(8) == 256;
    var low: Word := Zeros(8) + crc[8..];
    assert Xor(crc, BitsOf(b, 8) + Zeros(24)) == Xor(low, top + Zeros(24));
    ShiftNLinear(low, top + Zeros(24), 8);
    ShiftNSmall(low, 8);
    assert ShiftLeft(low, 8) == ShiftLeft(crc, 8);
  }

  // ---------------------------------------------------------------- division

  lemma {:induction false} DivideConcat(r: Word, a: seq<bool>, b: seq<bool>)
    ensures Divide(r, a + b) == Divide(Divide(r, a), b)
    decreases |a|
  {
    if a == [] {
      assert a + b == b;
    } else {
      assert (a + b)[1..] == a[1..] + b;
      DivideConcat(Xor(Shift(r), Constant(a[0])), a[1..], b);
    }
  }

  lemma {:induction false} DivideLinear(r: Word, s: Word, bits: seq<bool>)
    ensures Divide(Xor(r, s), bits) == Xor(ShiftN(r, |bits|), Divide(s, bits))
    decreases |bits|
  {
    if bits != [] {
      var c := Constant(bits[0]);
      ShiftLinear(r, s);
      assert Xor(Shift(Xor(r, s)), c) == Xor(Shift(r), Xor(Shift(s), c));
      DivideLinear(Shift(r), Xor(Shift(s), c), bits[1..]);
    }
  }

  /** An empty register takes up to 32 coefficients in unchanged. */
  lemma {:induction false} DivideLoads(bits: seq<bool>)
    requires |bits| <= 32
    ensures Divide(Zeros(32), bits) == Zeros(32 - |bits|) + bits
  {
    if bits == [] {
      assert Zeros(32) + [] == Zeros(32);
    } else {
      hide Shift, Divide, Zeros, Xor, Constant;
      var n := |bits| - 1;
      assert bits == bits[..n] + [bits[n]];
      DivideLoads(bits[..n]);
      LoadNext(bits[..n], bits[n]);
    }
  }

  lemma LoadNext(init: seq<bool>, b: bool)
    requires |init| < 32 && Divide(Zeros(32), init) == Zeros(32 - |init|) + init
    ensures Divide(Zeros(32), init + [b]) == Zeros(31 - |init|) + (init + [b])
  {
    hide Shift, Divide, Xor, Constant;
    var n := |init|;
    DivideConcat(Zeros(32), init, [b]);
    LoadOne(Zeros(32 - n) + init, b);
    ZerosTail(32 - n, init);
    assert Zeros(31 - n) + init + [b] == Zeros(31 - n) + (init + [b]);
  }

  lemma ZerosTail(n: nat, x: seq<bool>)
    requires n > 0
    ensures (Zeros(n) + x)[1..] == Zeros(n - 1) + x
  {
  }

  lemma LoadOne(r: Word, b: bool)
    requires !r[0]
    ensures Divide(r, [b]) == r[1..] + [b]
  {
    assert Divide(r, [b]) == Xor(Shift(r), Constant(b));
  }

  lemma DivideSplit(r: Word, bits: seq<bool>)
    requires |bits| <= 32
    ensures Divide(r, bits) == Xor(ShiftN(r, |bits|), Zeros(32 - |bits|) + bits)
  {
    assert Xor(r, Zeros(32)) == r;
    DivideLinear(r, Zeros(32), bits);
    DivideLoads(bits);
  }

  lemma DivideZeros(r: Word)
    ensures Divide(r, Zeros(32)) == ShiftN(r, 32)
  {
    hide Divide, ShiftN;
    DivideSplit(r, Zeros(32));
    assert Zeros(0) + Zeros(32) == Zeros(32);
    assert Xor(ShiftN(r, 32), Zeros(32)) == ShiftN(r, 32);
  }

  lemma CrcIsShift(data: seq<byte>)
    ensures Crc(data) == ShiftN(Divide(Zeros(32), Bits(data)), 32)
  {
    DivideConcat(Zeros(32), Bits(data), Zeros(32));
    DivideZeros(Divide(Zeros(32), Bits(data)));
  }

  lemma EmptyCrc()
    ensures Crc([]) == Zeros(32)
  {
    assert Bits([]) + Zeros(32) == Zeros(32);
    DivideLoads(Zeros(32));
    assert Zeros(0) + Zeros(32) == Zeros(32);
  }

  /** The checksum after one more byte. */
  lemma CrcAppend(data: seq<byte>, b: byte)
    ensures Crc(data + [b]) == ShiftN(Xor(Crc(data), BitsOf(b, 8) + Zeros(24)), 8)
  {
    var d := Divide(Zeros(32), Bits(data));
    var octet := BitsOf(b, 8);
    var w: Word := Zeros(24) + octet;
    assert (data + [b])[..|data|] == data;
    assert Bits(data + [b]) == Bits(data) + octet;
    DivideConcat(Zeros(32), Bits(data), octet);
    DivideSplit(d, octet);
    CrcIsShift(data);
    CrcIsShift(data + [b]);
    ShiftNLinear(ShiftN(d, 8), w, 32);
    ShiftNAdd(d, 8, 32); ShiftNAdd(d, 32, 8);
    ShiftNAdd(w, 24, 8);
    assert w[..24] == Zeros(24);
    ShiftNSmall(w, 24);
    assert ShiftLeft(w, 24) == octet + Zeros(24);
    ShiftNLinear(Crc(data), octet + Zeros(24), 8);
  }

  /** The coefficients that leave the register: the quotient of the long division. */
  function Quotient(r: Word, bits: seq<bool>): (q: seq<bool>)
    ensures |q| == |bits|
    decreases |bits|
  {
    if bits == [] then [] else [r[0]] + Quotient(Xor(Shift(r), Constant(bits[0])), bits[1..])
  }

  /** x^32+x^26+x^23+x^22+x^16+x^12+x^11+x^10+x^8+x^7+x^5+x^4+x^2+x+1, highest coefficient first. */
  function Divisor(): (d: seq<bool>)
    ensures |d| == 33
  {
    seq(33, i => 32 - i in {32, 26, 23, 22, 16, 12, 11, 10, 8, 7, 5, 4, 2, 1, 0})
  }

  /** Bit i of the highest-first bits of n is its binary digit of weight 2^(width - 1 - i). */
  lemma {:induction false} BitAt(n: nat, width: nat, i: nat)
    requires i < width
    ensures BitsOf(n, width)[i] <==> n / Power2(width - 1 - i) % 2 == 1
  {
    if i == width - 1 {
      assert Power2(0) == 1;
    } else {
      BitAt(n / 2, width - 1, i);
      HalfThenDivide(n, Power2(width - 2 - i));
    }
  }

  lemma HalfThenDivide(n: nat, d: nat)
    requires d > 0
    ensures n / 2 / d == n / (2 * d)
  {
    var q, r := n / 2 / d, n / 2 % d;
    assert n == 2 * (d * q + r) + n % 2;
    assert n == (2 * d) * q + (2 * r + n % 2);
    DivideUnique(n, 2 * d, q, 2 * r + n % 2);
  }

  lemma DivideUnique(n: nat, d: nat, q: nat, r: nat)
    requires n == d * q + r && r < d
    ensures n / d == q
  {
    Grows(d, n / d, q);
    Grows(d, q, n / d);
  }

  lemma Grows(d: nat, k: nat, q: nat)
    ensures k < q ==> d * k + d <= d * q
  {
    if k < q { assert d * q == d * (k + 1) + d * (q - k - 1); }
  }

  /** A message is sent with the highest bit of each byte first. */
  lemma {:induction false} MessageBit(data: seq<byte>, i: nat)
    requires i < 8 * |data|
    ensures Bits(data)[i] <==> data[i / 8] / Power2(7 - i % 8) % 2 == 1
  {
    hide BitsOf, Power2;
    var n := |data| - 1;
    LastByteBits(data);
    if i < 8 * n {
      MessageBit(data[..n], i);
    } else {
      BitAt(data[n], 8, i - 8 * n);
      assert i / 8 == n && i % 8 == i - 8 * n;
    }
  }

  lemma LastByteBits(data: seq<byte>)
    requires data != []
    ensures var n := |data| - 1;
      Bits(data)[..8 * n] == Bits(data[..n]) && Bits(data)[8 * n..] == BitsOf(data[n], 8)
  {
    hide BitsOf;
  }

  lemma Nibble(n: nat, width: nat)
    requires width >= 4
    ensures BitsOf(n, width)
         == BitsOf(n / 16, width - 4) + [n / 8 % 2 == 1, n / 4 % 2 == 1, n / 2 % 2 == 1, n % 2 == 1]
  {
    var a := n / 2;
    var b := a / 2;
    var c := b / 2;
    assert b == n / 4 && c == n / 8 && c / 2 == n / 16;
    assert BitsOf(n, width) == BitsOf(a, width - 1) + [n % 2 == 1];
    assert BitsOf(a, width - 1) == BitsOf(b, width - 2) + [a % 2 == 1];
    assert BitsOf(b, width - 2) == BitsOf(c, width - 3) + [b % 2 == 1];
    assert BitsOf(c, width - 3) == BitsOf(c / 2, width - 4) + [c % 2 == 1];
  }

  lemma PolynomialNibbles()
    ensures POLYNOMIAL ==
      [false, false, false, false] + [false, true, false, false] + [true, true, false, false]
      + [false, false, false, true] + [false, false, false, true] + [true, true, false, true]
      + [true, false, true, true] + [false, true, true, true]
  {
    hide BitsOf;
    Nibble(0x04C11DB7, 32);
    Nibble(0x04C11DB, 28);
    Nibble(0x04C11D, 24);
    Nibble(0x04C11, 20);
    HighNibbles();
  }

  lemma HighNibbles()
    ensures BitsOf(0x04C1, 16) ==
      [false, false, false, false] + [false, true, false, false] + [true, true, false, false]
      + [false, false, false, true]
  {
    hide BitsOf;
    Nibble(0x04C1, 16);
    Nibble(0x04C, 12);
    Nibble(0x04, 8);
    Nibble(0, 4);
    assert |BitsOf(0, 0)| == 0;
  }

  lemma PolynomialBits()
    ensures [true] + POLYNOMIAL == Divisor()
  {
    PolynomialNibbles();
    hide POLYNOMIAL;
  }

  /** The product of q and the divisor, highest coefficient first. */
  function TimesDivisor(q: seq<bool>): (p: seq<bool>)
    ensures |p| == |q| + 32
  {
    if q == [] then Zeros(32)
    else
      var rest := [false] + TimesDivisor(q[1..]);
      if q[0] then Xor(Divisor() + Zeros(|q| - 1), rest) else rest
  }

  /** dividend = quotient * divisor + remainder, so Divide is the remainder of real division. */
  lemma {:induction false} DivisionIdentity(r: Word, bits: seq<bool>)
    ensures r + bits == Xor(TimesDivisor(Quotient(r, bits)), Zeros(|bits|) + Divide(r, bits))
    decreases |bits|
  {
    if bits == [] {
      assert r + bits == Xor(Zeros(32), Zeros(0) + r);
    } else {
      hide Shift, Constant, Xor, Zeros, TimesDivisor, Quotient, Divide;
      var next := Xor(Shift(r), Constant(bits[0]));
      DivisionIdentity(next, bits[1..]);
      DivideStep(r, bits, next);
      JoinStep(r, bits, next, Quotient(next, bits[1..]), Divide(next, bits[1..]));
      assert Quotient(r, bits) == [r[0]] + Quotient(next, bits[1..]);
    }
  }

  /** The identity for the lines below and one line more. */
  lemma JoinStep(r: Word, bits: seq<bool>, next: Word, q: seq<bool>, d: Word)
    requires bits != [] && next == Xor(Shift(r), Constant(bits[0])) && |q| == |bits| - 1
    requires next + bits[1..] == Xor(TimesDivisor(q), Zeros(|q|) + d)
    ensures r + bits == Xor(TimesDivisor([r[0]] + q), Zeros(|bits|) + d)
  {
    hide Shift, Constant, Xor, Zeros, TimesDivisor, Divisor, POLYNOMIAL;
    PolynomialBits();
    FirstStep(r, bits, next);
    LeadingZero(|bits|, d);
    TopTerm([r[0]] + q);
    assert ([r[0]] + q)[1..] == q;
    CombineStep(r[0], [true] + POLYNOMIAL + Zeros(|q|), r + bits, next + bits[1..], TimesDivisor(q), Zeros(|q|) + d);
  }

  lemma DivideStep(r: Word, bits: seq<bool>, next: Word)
    requires bits != [] && next == Xor(Shift(r), Constant(bits[0]))
    ensures Divide(r, bits) == Divide(next, bits[1..])
    ensures Quotient(r, bits)[0] == r[0] && Quotient(r, bits)[1..] == Quotient(next, bits[1..])
  {
  }

  lemma LeadingZero(n: nat, r: Word)
    requires n > 0
    ensures Zeros(n) + r == [false] + (Zeros(n - 1) + r)
  {
  }

  lemma TopTerm(q: seq<bool>)
    requires q != []
    ensures var rest := [false] + TimesDivisor(q[1..]);
      TimesDivisor(q) == if q[0] then Xor(Divisor() + Zeros(|q| - 1), rest) else rest
  {
  }

  /** One line of the long division added to the identity for the lines below it. */
  lemma CombineStep(top: bool, divisor: seq<bool>, dividend: seq<bool>, next: seq<bool>,
                    product: seq<bool>, remainder: seq<bool>)
    requires |product| == |remainder| && next == Xor(product, remainder)
    requires |divisor| == |next| + 1
    requires dividend == if top then Xor(divisor, [false] + next) else [false] + next
    ensures dividend == Xor(if top then Xor(divisor, [false] + product) else [false] + product, [false] + remainder)
  {
  }

  lemma FirstStep(r: Word, bits: seq<bool>, next: Word)
    requires bits != [] && next == Xor(Shift(r), Constant(bits[0]))
    ensures r + bits == if r[0] then Xor([true] + POLYNOMIAL + Zeros(|bits| - 1), [false] + (next + bits[1..]))
                        else [false] + (next + bits[1..])
  {
    ShiftBits(r);
  }

  /** The checksum of the single byte 1 is the divisor without its leading term. */
  lemma OneByteCrc()
    ensures Value(Crc([1])) == 0x04C11DB7
  {
    hide ShiftN, BitsOf, Value, Crc, Xor, ShiftLeft, Divide;
    OneByteShifted();
    OneShifted();
    Power32();
    ValueOfBits(0x04C11DB7, 32);
  }

  /** The constant polynomial 1 in the register. */
  function One(): Word { Zeros(31) + [true] }

  lemma OneByteShifted()
    ensures Crc([1]) == ShiftN(One(), 32)
  {
    hide ShiftN, BitsOf, Crc, Divide;
    OneByteBits();
    DivideLoads(BitsOf(1, 8));
    CrcIsShift([1]);
    assert Zeros(24) + (Zeros(7) + [true]) == One();
  }

  lemma OneShifted()
    ensures ShiftN(One(), 32) == POLYNOMIAL
  {
    hide ShiftN;
    assert One()[..31] == Zeros(31);
    ShiftNSmall(One(), 31);
    ShiftNAdd(One(), 31, 1);
    var top := ShiftLeft(One(), 31);
    assert top == [true] + Zeros(31);
    OneShift(top);
    assert Xor(ShiftLeft(top, 1), POLYNOMIAL) == POLYNOMIAL;
  }

  lemma OneByteBits()
    ensures Bits([1]) == BitsOf(1, 8) == Zeros(7) + [true]
  {
    hide Bits, BitsOf;
    OneByte(1);
    BitsOfOne();
  }

  lemma OneByte(b: byte)
    ensures Bits([b]) == BitsOf(b, 8)
  {
    hide BitsOf;
    assert [b][..0] == [] && Bits([]) == [];
  }

  lemma BitsOfOne()
    ensures BitsOf(1, 8) == Zeros(7) + [true]
  {
    hide BitsOf;
    Nibble(1, 8);
    Nibble(0, 4);
    assert |BitsOf(0, 0)| == 0;
  }

  lemma OneShift(r: Word)
    ensures ShiftN(r, 1) == Shift(r)
  {
  }

  lemma Power32()
    ensures Power2(32) == 0x1_0000_0000
  {
    assert Power2(8) == 0x100;
    assert Power2(16) == 0x1_0000;
    assert Power2(24) == 0x100_0000;
  }

  // ---------------------------------------------------------------- what the checksum is for

  /** A message followed by its checksum is a multiple of the divisor. */
  lemma CodewordDivides(data: seq<byte>)
    ensures Divide(Zeros(32), Bits(data) + Crc(data)) == Zeros(32)
  {
    var w := Crc(data);
    DivideConcat(Zeros(32), Bits(data), w);
    DivideSplit(Divide(Zeros(32), Bits(data)), w);
    CrcIsShift(data);
    assert Zeros(0) + w == w;
    assert Xor(w, w) == Zeros(32);
  }

  /** No other 32 coefficients do: the checksum is the only such suffix. */
  lemma CodewordUnique(data: seq<byte>, w: Word)
    requires Divide(Zeros(32), Bits(data) + w) == Zeros(32)
    ensures w == Crc(data)
  {
    DivideConcat(Zeros(32), Bits(data), w);
    DivideSplit(Divide(Zeros(32), Bits(data)), w);
    CrcIsShift(data);
    assert Zeros(0) + w == w;
    assert Xor(w, w) == Zeros(32);
    XorCancels(Crc(data), w, w);
  }

  lemma ShiftInjective(a: Word, b: Word)
    requires Shift(a) == Shift(b)
    ensures a == b
  {
    PolynomialIsOdd();
    assert Shift(a)[31] == a[0] && Shift(b)[31] == b[0];
    assert ShiftLeft(a, 1) == ShiftLeft(b, 1) by {
      if a[0] { XorCancels(ShiftLeft(a, 1), ShiftLeft(b, 1), POLYNOMIAL); }
    }
    forall i | 0 < i < 32 ensures a[i] == b[i] {
      assert ShiftLeft(a, 1)[i - 1] == a[i] && ShiftLeft(b, 1)[i - 1] == b[i];
    }
  }

  lemma PolynomialIsOdd()
    ensures POLYNOMIAL[31]
  {
    LowestBit(0x04C11DB7, 32);
  }

  lemma LowestBit(n: nat, width: nat)
    requires width > 0
    ensures BitsOf(n, width)[width - 1] == (n % 2 == 1)
  {
  }

  lemma {:induction false} DivideInjective(a: Word, b: Word, bits: seq<bool>)
    requires a != b
    ensures Divide(a, bits) != Divide(b, bits)
    decreases |bits|
  {
    if bits != [] {
      var c := Constant(bits[0]);
      if Xor(Shift(a), c) == Xor(Shift(b), c) {
        XorCancels(Shift(a), Shift(b), c);
        ShiftInjective(a, b);
      }
      DivideInjective(Xor(Shift(a), c), Xor(Shift(b), c), bits[1..]);
    }
  }

  lemma XorCancels(a: Word, b: Word, c: Word)
    requires Xor(a, c) == Xor(b, c)
    ensures a == b
  {
    forall i | 0 <= i < 32 ensures a[i] == b[i] {
      assert Xor(a, c)[i] == Xor(b, c)[i];
    }
  }

  /** Different runs of at most 32 bits leave different remainders. */
  lemma ShortRunsDiffer(r: Word, x: seq<bool>, y: seq<bool>)
    requires |x| == |y| <= 32 && x != y
    ensures Divide(r, x) != Divide(r, y)
  {
    hide Divide, ShiftN;
    var n := |x|;
    DivideSplit(r, x);
    DivideSplit(r, y);
    var i :| 0 <= i < n && x[i] != y[i];
    assert (Zeros(32 - n) + x)[32 - n + i] == x[i];
    assert (Zeros(32 - n) + y)[32 - n + i] == y[i];
    assert Divide(r, x)[32 - n + i] != Divide(r, y)[32 - n + i];
  }

  /**
   * Burst detection: two messages that differ only inside a run of at most 32 consecutive
   * bits, starting at any bit, never share a checksum.
   */
  lemma BurstChangesCrc(good: seq<byte>, bad: seq<byte>, before: seq<bool>, x: seq<bool>, y: seq<bool>,
        after: seq<bool>)
    requires Bits(good) == before + x + after && Bits(bad) == before + y + after
    requires |x| == |y| <= 32 && x != y
    ensures Crc(good) != Crc(bad)
  {
    var r := Divide(Zeros(32), before);
    ShortRunsDiffer(r, x, y);
    DivideConcat(Zeros(32), before, x); DivideConcat(Zeros(32), before, y);
    var tail := after + Zeros(32);
    DivideConcat(Zeros(32), before + x, tail); DivideConcat(Zeros(32), before + y, tail);
    assert Bits(good) + Zeros(32) == before + x + tail;
    assert Bits(bad) + Zeros(32) == before + y + tail;
    DivideInjective(Divide(r, x), Divide(r, y), tail);
  }
}

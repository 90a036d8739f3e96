/** The payload patterns of test packets. */
module TestPatterns {
  const PAYLOAD_MAX_SIZE: nat := 37

  function FirstRow(k: int): int {
    if k == 0 then 0xff else if k == 1 then 0xc1 else if k == 2 then 0xfb else if k == 3 then 0xe8 else
    if k == 4 then 0x4c else if k == 5 then 0x90 else if k == 6 then 0x72 else 0x8b
  }

  function SecondRow(k: int): int {
    if k == 8 then 0xe7 else if k == 9 then 0xb3 else if k == 10 then 0x51 else if k == 11 then 0x89 else
    if k == 12 then 0x63 else if k == 13 then 0xab else if k == 14 then 0x23 else 0x23
  }

  function ThirdRow(k: int): int {
    if k == 16 then 0x02 else if k == 17 then 0x84 else if k == 18 then 0x18 else if k == 19 then 0x72 else
    if k == 20 then 0xaa else if k == 21 then 0x61 else if k == 22 then 0x2f else 0x3b
  }

  function FourthRow(k: int): int {
    if k == 24 then 0x51 else if k == 25 then 0xa8 else if k == 26 then 0xe5 else if k == 27 then 0x37 else
    if k == 28 then 0x49 else if k == 29 then 0xfb else if k == 30 then 0xc9 else 0xca
  }

  function FifthRow(k: int): int {
    if k == 32 then 0x0c else if k == 33 then 0x18 else if k == 34 then 0x53 else if k == 35 then 0x2c else
    0xfd
  }

  /** The first pattern, eight bytes a row. */
  function Prbs9(k: int): int
    requires 0 <= k < 37
  {
    if k < 8 then FirstRow(k)
    else if k < 16 then SecondRow(k)
    else if k < 24 then ThirdRow(k)
    else if k < 32 then FourthRow(k)
    else FifthRow(k)
  }

  /** The payload byte of a packet type at an index. */
  function PatternByte(kind: int, k: int): int
    requires 0 <= k < 37
  {
    if kind == 0 then Prbs9(k) else if kind == 1 then 0x0F else 0x55
  }

  /** A byte, low bit first. */
  datatype Bits = Bits(b0: bool, b1: bool, b2: bool, b3: bool, b4: bool, b5: bool, b6: bool, b7: bool)

  function Less(b: int, w: int): int {
    if b >= w then b - w else b
  }

  function BitsOf(b: int): Bits {
    var r6 := Less(b, 128);
    var r5 := Less(r6, 64);
    var r4 := Less(r5, 32);
    var r3 := Less(r4, 16);
    var r2 := Less(r3, 8);
    var r1 := Less(r2, 4);
    Bits(Less(r1, 2) >= 1, r1 >= 2, r2 >= 4, r3 >= 8, r4 >= 16, r5 >= 32, r6 >= 64, b >= 128)
  }

  /** The byte that the generator of the standard puts after `a` and `b`: each bit is the sum
      of the bits five and nine places before it. */
  function Generated(a: Bits, b: Bits): Bits {
    var c0, c1, c2 := b.b3 != a.b7, b.b4 != b.b0, b.b5 != b.b1;
    Bits(c0, c1, c2, b.b6 != b.b2, b.b7 != b.b3, c0 != b.b4, c1 != b.b5, c2 != b.b6)
  }

  predicate Continues(i: int)
    requires 2 <= i < 37
  {
    BitsOf(Prbs9(i)) == Generated(BitsOf(Prbs9(i - 2)), BitsOf(Prbs9(i - 1)))
  }

  lemma ContinuesFrom2()
    ensures Continues(2) && Continues(3) && Continues(4) && Continues(5)
    ensures Continues(6) && Continues(7) && Continues(8)
  {
  }

  lemma ContinuesFrom9()
    ensures Continues(9) && Continues(10) && Continues(11) && Continues(12)
    ensures Continues(13) && Continues(14) && Continues(15)
  {
  }

  lemma ContinuesFrom16()
    ensures Continues(16) && Continues(17) && Continues(18) && Continues(19)
    ensures Continues(20) && Continues(21) && Continues(22)
  {
  }

  lemma ContinuesFrom23()
    ensures Continues(23) && Continues(24) && Continues(25) && Continues(26)
    ensures Continues(27) && Continues(28) && Continues(29)
  {
  }

  lemma ContinuesFrom30()
    ensures Continues(30) && Continues(31) && Continues(32) && Continues(33)
    ensures Continues(34) && Continues(35) && Continues(36)
  {
  }

  /** The generator starts with nine ones. */
  lemma StartsWithOnes()
    ensures BitsOf(Prbs9(0)) == Bits(true, true, true, true, true, true, true, true) && BitsOf(Prbs9(1)).b0
  {
  }

  lemma EarlyContinues(i: int)
    requires 2 <= i < 16
    ensures Continues(i)
  {
    if i < 9 {
      ContinuesFrom2();
    } else {
      ContinuesFrom9();
    }
  }

  lemma LateContinues(i: int)
    requires 16 <= i < 37
    ensures Continues(i)
  {
    if i < 23 {
      ContinuesFrom16();
    } else if i < 30 {
      ContinuesFrom23();
    } else {
      ContinuesFrom30();
    }
  }

  /** The first pattern is the sequence of the generator. */
  lemma PrbsIsGenerated(i: int)
    requires 2 <= i < 37
    ensures BitsOf(Prbs9(0)) == Bits(true, true, true, true, true, true, true, true) && BitsOf(Prbs9(1)).b0
    ensures Continues(i)
  {
    StartsWithOnes();
    if i < 16 {
      EarlyContinues(i);
    } else {
      LateContinues(i);
    }
  }
}

/**
 The MD5 routine: one loop of 64 steps over rotating registers, with computed word
 indices, against the operations RFC 1321 writes out one by one.
 */
module Md5 {
  import opened Words

  type Reg = Word

  // ---------- bits ----------

  function Pow2(n: nat): (r: nat)
    ensures r > 0
  {
    if n == 0 then 1 else 2 * Pow2(n - 1)
  }

  // Bit i of x.
  function Bit(x: nat, i: nat): bool
    decreases i
  {
    if i == 0 then x % 2 == 1 else Bit(x / 2, i - 1)
  }

  datatype BitOp = BitAnd | BitOr | BitXor {
    function On(p: bool, q: bool): bool {
      match this
      case BitAnd => p && q
      case BitOr => p || q
      case BitXor => p != q
    }
  }

  // The low n bits of x and y combined.
  function Bitwise(op: BitOp, x: nat, y: nat, n: nat): (r: nat)
    ensures r < Pow2(n)
    decreases n
  {
    if n == 0 then 0 else (if op.On(x % 2 == 1, y % 2 == 1) then 1 else 0) + 2 * Bitwise(op, x / 2, y / 2, n - 1)
  }

  lemma {:induction false} BitwiseAt(op: BitOp, x: nat, y: nat, n: nat, i: nat)
    requires i < n
    ensures Bit(Bitwise(op, x, y, n), i) == op.On(Bit(x, i), Bit(y, i))
    decreases n
  {
    var r := Bitwise(op, x, y, n);
    assert r / 2 == Bitwise(op, x / 2, y / 2, n - 1);
    if i == 0 {
    } else {
      BitwiseAt(op, x / 2, y / 2, n - 1, i - 1);
    }
  }

  lemma {:induction false} BitwiseCommutes(op: BitOp, x: nat, y: nat, n: nat)
    ensures Bitwise(op, x, y, n) == Bitwise(op, y, x, n)
    decreases n
  {
    if n == 0 {
    } else {
      BitwiseCommutes(op, x / 2, y / 2, n - 1);
    }
  }

  lemma {:induction false} Pow2Add(a: nat, b: nat)
    ensures Pow2(a + b) == Pow2(a) * Pow2(b)
    decreases a
  {
    if a == 0 {
    } else {
      Pow2Add(a - 1, b);
      assert a + b - 1 == a - 1 + b;
      assert 2 * (Pow2(a - 1) * Pow2(b)) == 2 * Pow2(a - 1) * Pow2(b);
    }
  }

  lemma Pow2Is()
    ensures Pow2(32) == 0x1_0000_0000
  {
    assert Pow2(8) == 0x100;
    assert Pow2(16) == 0x1_0000;
    assert Pow2(24) == 0x100_0000;
  }

  // ---------- RFC 1321, section 3.4 ----------

  function Word32(op: BitOp, x: Reg, y: Reg): Reg {
    Pow2Is();
    Bitwise(op, x, y, 32)
  }

  function And(x: Reg, y: Reg): Reg { Word32(BitAnd, x, y) }
  function Or(x: Reg, y: Reg): Reg { Word32(BitOr, x, y) }
  function Xor(x: Reg, y: Reg): Reg { Word32(BitXor, x, y) }
  function Not(x: Reg): Reg { 0xFFFF_FFFF - x }

  // Addition modulo 2^32.
  function Plus(x: Reg, y: Reg): (r: Reg)
    ensures r == x + y || r == x + y - 0x1_0000_0000
  {
    if x + y < 0x1_0000_0000 then x + y else x + y - 0x1_0000_0000
  }

  function F(x: Reg, y: Reg, z: Reg): Reg { Or(And(x, y), And(Not(x), z)) }
  function G(x: Reg, y: Reg, z: Reg): Reg { Or(And(x, z), And(y, Not(z))) }
  function H(x: Reg, y: Reg, z: Reg): Reg { Xor(Xor(x, y), z) }
  function I(x: Reg, y: Reg, z: Reg): Reg { Xor(y, Or(x, Not(z))) }

  lemma {:induction false} NotAt(x: nat, n: nat, i: nat)
    requires x < Pow2(n) && i < n
    ensures Bit(Pow2(n) - 1 - x, i) == !Bit(x, i)
    decreases n
  {
    assert (Pow2(n) - 1 - x) / 2 == Pow2(n - 1) - 1 - x / 2;
    if i == 0 {
    } else {
      NotAt(x / 2, n - 1, i - 1);
    }
  }

  lemma NotBit(x: Reg, i: nat)
    requires i < 32
    ensures Bit(Not(x), i) == !Bit(x, i)
  {
    Pow2Is();
    hide Bit, Pow2;
    NotAt(x, 32, i);
  }

  // What each function does in every bit position: F and G choose, H is the parity.
  lemma FunctionBits(x: Reg, y: Reg, z: Reg, i: nat)
    requires i < 32
    ensures Bit(F(x, y, z), i) == if Bit(x, i) then Bit(y, i) else Bit(z, i)
    ensures Bit(G(x, y, z), i) == if Bit(z, i) then Bit(x, i) else Bit(y, i)
    ensures Bit(H(x, y, z), i) == ((Bit(x, i) != Bit(y, i)) != Bit(z, i))
    ensures Bit(I(x, y, z), i) == (Bit(y, i) != (Bit(x, i) || !Bit(z, i)))
  {
    hide Bit, Word32, Not;
    NotBit(x, i);
    NotBit(z, i);
    OpAt(BitAnd, x, y, i);
    OpAt(BitAnd, Not(x), z, i);
    OpAt(BitOr, And(x, y), And(Not(x), z), i);
    OpAt(BitAnd, x, z, i);
    OpAt(BitAnd, y, Not(z), i);
    OpAt(BitOr, And(x, z), And(y, Not(z)), i);
    OpAt(BitXor, x, y, i);
    OpAt(BitXor, Xor(x, y), z, i);
    OpAt(BitOr, x, Not(z), i);
    OpAt(BitXor, y, Or(x, Not(z)), i);
  }

  lemma OpAt(op: BitOp, x: Reg, y: Reg, i: nat)
    requires i < 32
    ensures Bit(Word32(op, x, y), i) == op.On(Bit(x, i), Bit(y, i))
  {
    hide Bit, Bitwise;
    BitwiseAt(op, x, y, 32, i);
  }

  function ShiftUp(x: Reg, s: nat): Reg {
    x * Pow2(s) % 0x1_0000_0000
  }

  function ShiftDown(x: Reg, s: nat): Reg {
    QuotientSmall(x, Pow2(s));
    x / Pow2(s)
  }

  lemma QuotientSmall(x: nat, d: nat)
    requires d > 0
    ensures 0 <= x / d <= x
  {
    var q := x / d;
    assert x == q * d + x % d;
    if q < 0 {
      MulMonotone(q, -1, d);
    } else {
      MulMonotone(1, d, q);
    }
  }

  // X <<< s, as arithmetic: what leaves at the top comes in at the bottom.
  function Rotated32(x: Reg, s: nat): (r: Reg)
    requires 0 < s < 32
  {
    RotationFits(x, s);
    ShiftUp(x, s) + ShiftDown(x, 32 - s)
  }

  // The shifted word is a multiple of 2^s, and what is added is less than 2^s.
  lemma RotationFits(x: Reg, s: nat)
    requires 0 < s < 32
    ensures ShiftUp(x, s) == x % Pow2(32 - s) * Pow2(s) && ShiftDown(x, 32 - s) == x / Pow2(32 - s) < Pow2(s)
    ensures ShiftUp(x, s) + ShiftDown(x, 32 - s) < 0x1_0000_0000
  {
    Pow2Add(s, 32 - s);
    Pow2Is();
    hide Pow2;
    RotationParts(x, Pow2(s), Pow2(32 - s));
    BelowProduct(Pow2(s), Pow2(32 - s));
  }

  // Written out.
  lemma Rotation(x: Reg, s: nat)
    requires 0 < s < 32
    ensures Rotated32(x, s) == x * Pow2(s) % 0x1_0000_0000 + x / Pow2(32 - s)
  {
    RotationFits(x, s);
    hide Pow2;
  }

  lemma BelowProduct(a: nat, b: nat)
    requires b > 0
    ensures a <= a * b
  {
  }

  lemma RotationParts(x: nat, hi: nat, lo: nat)
    requires hi > 0 && lo > 0 && hi * lo == 0x1_0000_0000 && x < hi * lo
    ensures x * hi % 0x1_0000_0000 == x % lo * hi && x / lo < hi && x % lo * hi + x / lo < 0x1_0000_0000
  {
    QuotientBelow(x, hi, lo);
    ShiftedModulo(x, hi, lo, x / lo, x % lo);
    TopBelow(x % lo, x / lo, hi, lo);
  }

  lemma QuotientBelow(x: nat, hi: nat, lo: nat)
    requires lo > 0 && x < hi * lo
    ensures x / lo < hi && x == x / lo * lo + x % lo
  {
    var q := x / lo;
    assert x == q * lo + x % lo;
    if q >= hi {
      MulMonotone(hi, q, lo);
    }
  }

  lemma MulMonotone(a: int, b: int, c: nat)
    requires a <= b
    ensures a * c <= b * c
  {
  }

  lemma ShiftedModulo(x: nat, hi: nat, lo: nat, q: nat, r: nat)
    requires hi > 0 && lo > 0 && hi * lo == 0x1_0000_0000 && x == q * lo + r && r < lo
    ensures x * hi % 0x1_0000_0000 == r * hi
  {
    assert x * hi == q * (hi * lo) + r * hi by {
      assert q * lo * hi == q * (hi * lo);
      assert (q * lo + r) * hi == q * lo * hi + r * hi;
    }
    assert r * hi < lo * hi;
    assert lo * hi == hi * lo;
  }

  lemma TopBelow(r: nat, q: nat, hi: nat, lo: nat)
    requires r < lo && q < hi
    ensures r * hi + q < hi * lo
  {
    assert (r + 1) * hi == r * hi + hi;
    assert (r + 1) * hi <= lo * hi;
    assert lo * hi == hi * lo;
  }

  // The sine table, T[1] to T[64].
  function SineRow(row: nat): (r: seq<Reg>)
    ensures |r| == 8
  {
    match row
    case 0 => [0xd76aa478, 0xe8c7b756, 0x242070db, 0xc1bdceee, 0xf57c0faf, 0x4787c62a, 0xa8304613, 0xfd469501]
    case 1 => [0x698098d8, 0x8b44f7af, 0xffff5bb1, 0x895cd7be, 0x6b901122, 0xfd987193, 0xa679438e, 0x49b40821]
    case 2 => [0xf61e2562, 0xc040b340, 0x265e5a51, 0xe9b6c7aa, 0xd62f105d, 0x02441453, 0xd8a1e681, 0xe7d3fbc8]
    case 3 => [0x21e1cde6, 0xc33707d6, 0xf4d50d87, 0x455a14ed, 0xa9e3e905, 0xfcefa3f8, 0x676f02d9, 0x8d2a4c8a]
    case 4 => [0xfffa3942, 0x8771f681, 0x6d9d6122, 0xfde5380c, 0xa4beea44, 0x4bdecfa9, 0xf6bb4b60, 0xbebfbc70]
    case 5 => [0x289b7ec6, 0xeaa127fa, 0xd4ef3085, 0x04881d05, 0xd9d4d039, 0xe6db99e5, 0x1fa27cf8, 0xc4ac5665]
    case 6 => [0xf4292244, 0x432aff97, 0xab9423a7, 0xfc93a039, 0x655b59c3, 0x8f0ccc92, 0xffeff47d, 0x85845dd1]
    case _ => [0x6fa87e4f, 0xfe2ce6e0, 0xa3014314, 0x4e0811a1, 0xf7537e82, 0xbd3af235, 0x2ad7d2bb, 0xeb86d391]
  }

  function T(i: nat): Reg {
    SineRow(i / 8)[i % 8]
  }

  // Operations are written in lines of four, [ABCD k s i] [DABC k s i] [CDAB k s i]
  // [BCDA k s i]: the register order is fixed by the column.
  datatype Four = Four(p0: nat, p1: nat, p2: nat, p3: nat) {
    function At(column: nat): nat {
      if column == 0 then p0 else if column == 1 then p1 else if column == 2 then p2 else p3
    }
  }

  // The message word of each column, line by line; four lines make a round.
  function LineWords(line: nat): Four {
    match line
    case 0 => Four(0, 1, 2, 3)
    case 1 => Four(4, 5, 6, 7)
    case 2 => Four(8, 9, 10, 11)
    case 3 => Four(12, 13, 14, 15)
    case 4 => Four(1, 6, 11, 0)
    case 5 => Four(5, 10, 15, 4)
    case 6 => Four(9, 14, 3, 8)
    case 7 => Four(13, 2, 7, 12)
    case 8 => Four(5, 8, 11, 14)
    case 9 => Four(1, 4, 7, 10)
    case 10 => Four(13, 0, 3, 6)
    case 11 => Four(9, 12, 15, 2)
    case 12 => Four(0, 7, 14, 5)
    case 13 => Four(12, 3, 10, 1)
    case 14 => Four(8, 15, 6, 13)
    case 15 => Four(4, 11, 2, 9)
    case _ => Four(0, 0, 0, 0)
  }

  // The shift of each column in a round.
  function RoundShifts(round: nat): (f: Four)
    ensures 0 < f.p0 < 32 && 0 < f.p1 < 32 && 0 < f.p2 < 32 && 0 < f.p3 < 32
  {
    match round
    case 0 => Four(7, 12, 17, 22)
    case 1 => Four(5, 9, 14, 20)
    case 2 => Four(4, 11, 16, 23)
    case _ => Four(6, 10, 15, 21)
  }

  datatype Regs = Regs(A: Reg, B: Reg, C: Reg, D: Reg)

  type Block = w: seq<Reg> | |w| == 16 witness [0, 0, 0, 0, 0, 0, 0, 0, 0, 0, 0, 0, 0, 0, 0, 0]

  // The auxiliary function of operation n's round.
  function Aux(n: nat, b: Reg, c: Reg, d: Reg): Reg {
    if n < 16 then F(b, c, d) else if n < 32 then G(b, c, d) else if n < 48 then H(b, c, d) else I(b, c, d)
  }

  // a = b + ((a + f(b,c,d) + X[k] + T[i]) <<< s), where operation n uses T[n + 1].
  function Mixed(n: nat, a: Reg, b: Reg, c: Reg, d: Reg, xk: Reg, s: nat): Reg
    requires 0 < s < 32
  {
    Plus(b, Rotated32(Plus(Plus(Plus(a, Aux(n, b, c, d)), xk), T(n)), s))
  }

  // One operation in column c of its line: the registers in the order the column gives.
  function Column(c: nat, n: nat, r: Regs, xk: Reg, s: nat): Regs
    requires 0 < s < 32
  {
    if c == 0 then r.(A := Mixed(n, r.A, r.B, r.C, r.D, xk, s))
    else if c == 1 then r.(D := Mixed(n, r.D, r.A, r.B, r.C, xk, s))
    else if c == 2 then r.(C := Mixed(n, r.C, r.D, r.A, r.B, xk, s))
    else r.(B := Mixed(n, r.B, r.C, r.D, r.A, xk, s))
  }

  function Apply(n: nat, r: Regs, w: Block): Regs {
    var k := LineWords(n / 4).At(n % 4);
    Column(n % 4, n, r, if k < 16 then w[k] else 0, RoundShifts(n / 16).At(n % 4))
  }

  // The registers after the first n operations.
  function Unrolled(n: nat, r: Regs, w: Block): Regs
    requires n <= 64
  {
    if n == 0 then r else Apply(n - 1, Unrolled(n - 1, r, w), w)
  }

  function Sum(x: Regs, y: Regs): Regs {
    Regs(Plus(x.A, y.A), Plus(x.B, y.B), Plus(x.C, y.C), Plus(x.D, y.D))
  }

  // One block of section 3.4.
  function RfcBlock(h: Regs, w: Block): Regs {
    Sum(h, Unrolled(64, h, w))
  }

  // ---------- the rolled loop ----------

  // The shift table r[]: each round repeats its four amounts.
  function Shift(i: nat): (s: nat)
    requires i < 64
    ensures 0 < s < 32
  {
    var col := i % 4;
    if i < 16 then (if col == 0 then 7 else if col == 1 then 12 else if col == 2 then 17 else 22)
    else if i < 32 then (if col == 0 then 5 else if col == 1 then 9 else if col == 2 then 14 else 20)
    else if i < 48 then (if col == 0 then 4 else if col == 1 then 11 else if col == 2 then 16 else 23)
    else (if col == 0 then 6 else if col == 1 then 10 else if col == 2 then 15 else 21)
  }

  // The index of the message word used in step i.
  function WordIndex(i: nat): (g: nat)
    requires i < 64
    ensures g < 16
  {
    if i < 16 then i else if i < 32 then (5 * i + 1) % 16 else if i < 48 then (3 * i + 5) % 16 else 7 * i % 16
  }

  // The computed index and the tabulated shift are the written-out ones, line by line.
  lemma ListedRound0(line: nat, c: nat)
    requires 0 <= line < 4 && c < 4
    ensures LineWords(line).At(c) == WordIndex(4 * line + c) && RoundShifts(0).At(c) == Shift(4 * line + c)
  {
    match line
    case 0 => case 1 => case 2 => case _ =>
  }

  lemma ListedRound1(line: nat, c: nat)
    requires 4 <= line < 8 && c < 4
    ensures LineWords(line).At(c) == WordIndex(4 * line + c) && RoundShifts(1).At(c) == Shift(4 * line + c)
  {
    match line
    case 4 => case 5 => case 6 => case _ =>
  }

  lemma ListedRound2(line: nat, c: nat)
    requires 8 <= line < 12 && c < 4
    ensures LineWords(line).At(c) == WordIndex(4 * line + c) && RoundShifts(2).At(c) == Shift(4 * line + c)
  {
    match line
    case 8 => case 9 => case 10 => case _ =>
  }

  lemma ListedRound3(line: nat, c: nat)
    requires 12 <= line < 16 && c < 4
    ensures LineWords(line).At(c) == WordIndex(4 * line + c) && RoundShifts(3).At(c) == Shift(4 * line + c)
  {
    match line
    case 12 => case 13 => case 14 => case _ =>
  }

  lemma ListedIndex(i: nat)
    requires i < 64
    ensures LineWords(i / 4).At(i % 4) == WordIndex(i) && RoundShifts(i / 16).At(i % 4) == Shift(i)
  {
    hide LineWords, RoundShifts, WordIndex, Shift, Four.At;
    var line, c := i / 4, i % 4;
    assert i == 4 * line + c && line / 4 == i / 16;
    if line < 4 {
      ListedRound0(line, c);
    } else if line < 8 {
      ListedRound1(line, c);
    } else if line < 12 {
      ListedRound2(line, c);
    } else {
      ListedRound3(line, c);
    }
  }

  // LEFTROTATE: the word shifted up in 32 bits, or'ed with the word shifted down.
  function RotL(x: Reg, s: nat): Reg
    requires 0 < s < 32
  {
    Or(ShiftUp(x, s), ShiftDown(x, 32 - s))
  }

  lemma {:induction false} OrZero(x: nat, n: nat)
    requires x < Pow2(n)
    ensures Bitwise(BitOr, x, 0, n) == x
    decreases n
  {
    if n == 0 {
    } else {
      OrZero(x / 2, n - 1);
    }
  }

  // Where one word has only zeros below 2^s and the other nothing above, or is addition.
  lemma {:induction false} OrIsSum(a: nat, b: nat, s: nat, n: nat)
    requires b < Pow2(s) && a * Pow2(s) + b < Pow2(n)
    ensures Bitwise(BitOr, a * Pow2(s), b, n) == a * Pow2(s) + b
    decreases n
  {
    if n == 0 {
    } else if s == 0 {
      assert a * Pow2(s) == a;
      OrZero(a, n);
    } else {
      var top := a * Pow2(s - 1);
      assert a * Pow2(s) == 2 * top;
      OrIsSum(a, b / 2, s - 1, n - 1);
    }
  }

  // The macro is the rotation.
  lemma RotLIsRotation(x: Reg, s: nat)
    requires 0 < s < 32
    ensures RotL(x, s) == Rotated32(x, s)
  {
    RotationFits(x, s);
    Pow2Is();
    hide Pow2, Bitwise, ShiftUp, ShiftDown;
    OrIsSum(x % Pow2(32 - s), x / Pow2(32 - s), s, 32);
  }

  // f, as the loop writes it.
  function LoopF(i: nat, b: Reg, c: Reg, d: Reg): Reg {
    if i < 16 then Or(And(b, c), And(Not(b), d))
    else if i < 32 then Or(And(d, b), And(Not(d), c))
    else if i < 48 then Xor(Xor(b, c), d)
    else Xor(c, Or(b, Not(d)))
  }

  // The loop's four registers, and one turn of it.
  function Step(i: nat, r: Regs, w: Block): Regs
    requires i < 64
  {
    var sum := Plus(Plus(Plus(r.A, LoopF(i, r.B, r.C, r.D)), T(i)), w[WordIndex(i)]);
    Regs(r.D, Plus(r.B, RotL(sum, Shift(i))), r.B, r.C)
  }

  function Rolled(n: nat, r: Regs, w: Block): Regs
    requires n <= 64
  {
    if n == 0 then r else Step(n - 1, Rolled(n - 1, r, w), w)
  }

  // The loop's registers seen in the places column c uses.
  function Rotated(c: nat, r: Regs): Regs {
    if c == 0 then r
    else if c == 1 then Regs(r.D, r.A, r.B, r.C)
    else if c == 2 then Regs(r.C, r.D, r.A, r.B)
    else Regs(r.B, r.C, r.D, r.A)
  }

  // Moving the registers round once per step keeps the loop in the next column's order.
  lemma ColumnTurns(c: nat, n: nat, r: Regs, xk: Reg, s: nat)
    requires c < 4 && 0 < s < 32
    ensures var u := Rotated(c, r);
            Regs(u.D, Mixed(n, u.A, u.B, u.C, u.D, xk, s), u.B, u.C) == Rotated((c + 1) % 4, Column(c, n, r, xk, s))
  {
    hide Mixed;
  }

  lemma LoopFIsAux(i: nat, b: Reg, c: Reg, d: Reg)
    ensures LoopF(i, b, c, d) == Aux(i, b, c, d)
  {
    AndCommutes(b, d);
    AndCommutes(c, Not(d));
    hide And, Or, Xor, Not;
  }

  lemma AddSwap(x: Reg, y: Reg, z: Reg)
    ensures Plus(Plus(x, y), z) == Plus(Plus(x, z), y)
  {
  }

  lemma AndCommutes(x: Reg, y: Reg)
    ensures And(x, y) == And(y, x)
  {
    BitwiseCommutes(BitAnd, x, y, 32);
    hide Bitwise;
  }

  lemma StepIsMixed(i: nat, r: Regs, w: Block)
    requires i < 64
    ensures Step(i, r, w).B == Mixed(i, r.A, r.B, r.C, r.D, w[WordIndex(i)], Shift(i))
  {
    LoopFIsAux(i, r.B, r.C, r.D);
    AddSwap(Plus(r.A, Aux(i, r.B, r.C, r.D)), T(i), w[WordIndex(i)]);
    RotLIsRotation(Plus(Plus(Plus(r.A, Aux(i, r.B, r.C, r.D)), w[WordIndex(i)]), T(i)), Shift(i));
    hide T, LoopF, Aux, RotL, Shift, WordIndex, Plus, Rotated32;
  }

  // One step, one operation.
  lemma StepIsApply(n: nat, r: Regs, w: Block)
    requires n < 64
    ensures Step(n, Rotated(n % 4, r), w) == Rotated((n + 1) % 4, Apply(n, r, w))
  {
    hide Mixed, LineWords, RoundShifts, Four.At, T, RotL, LoopF, Shift, WordIndex, Plus, Column, Rotated;
    ListedIndex(n);
    StepIsMixed(n, Rotated(n % 4, r), w);
    ColumnTurns(n % 4, n, r, w[WordIndex(n)], Shift(n));
    assert (n + 1) % 4 == (n % 4 + 1) % 4;
  }

  // After any number of steps the rolled registers are the unrolled ones, renamed.
  lemma {:induction false} RolledMatchesUnrolled(n: nat, r: Regs, w: Block)
    requires n <= 64
    ensures Rolled(n, r, w) == Rotated(n % 4, Unrolled(n, r, w))
  {
    if n == 0 {
    } else {
      RolledMatchesUnrolled(n - 1, r, w);
      StepIsApply(n - 1, Unrolled(n - 1, r, w), w);
      hide Step, Apply;
    }
  }

  // One chunk of the source's loop is one block of section 3.4.
  lemma ChunkIsRfcBlock(h: Regs, w: Block)
    ensures Sum(h, Rolled(64, h, w)) == RfcBlock(h, w)
  {
    hide Rolled, Unrolled;
    RolledMatchesUnrolled(64, h, w);
  }

  // ---------- padding, sections 3.1 and 3.2 ----------

  function Zeros(n: nat): (r: seq<Byte>)
    ensures |r| == n
  {
    seq(n, _ => 0)
  }

  // The fewest zero bytes that bring the length, after the 1 bit, to 56 modulo 64.
  function ZeroCount(len: nat): (z: nat)
    ensures z < 64 && (len + 1 + z) % 64 == 56
  {
    (55 + 64 - len % 64) % 64
  }

  // The message up to where its length goes.
  function Head(msg: seq<Byte>, zeros: nat): (r: seq<Byte>)
    ensures |r| == |msg| + 1 + zeros && r[..|msg|] == msg
  {
    msg + ([0x80] + Zeros(zeros))
  }

  lemma WholeBlocks(n: nat)
    requires n % 64 == 56
    ensures (n + 8) % 64 == 0
  {
  }

  function RfcPad(msg: seq<Byte>): (r: seq<Byte>)
    ensures |r| == |msg| + 1 + ZeroCount(|msg|) + 8 && |r| % 64 == 0
  {
    WholeBlocks(|msg| + 1 + ZeroCount(|msg|));
    Head(msg, ZeroCount(|msg|)) + LittleEnd(8 * |msg|, 8)
  }

  // The source's padded length, before the eight length bytes.
  function NewLen(len: nat): nat {
    ((len + 8) / 64 + 1) * 64 - 8
  }

  lemma NewLenIsRfc(len: nat)
    ensures NewLen(len) == len + 1 + ZeroCount(len)
  {
  }

  // What the source builds: a zeroed buffer with the message, a 1 bit, and a 32-bit
  // length in the low half of the length field.
  function SourcePad(msg: seq<Byte>): (r: seq<Byte>)
    ensures |r| == |RfcPad(msg)|
  {
    NewLenIsRfc(|msg|);
    Head(msg, NewLen(|msg|) - |msg| - 1) + (LittleEnd(8 * |msg| % 0x1_0000_0000, 4) + Zeros(4))
  }

  lemma {:induction false} HighBytesZero(v: nat, n: nat, z: nat, bound: nat)
    requires v < bound && bound == Pow256(n)
    ensures LittleEnd(v, n + z) == LittleEnd(v, n) + Zeros(z)
  {
    if n == 0 {
      ZeroBytes(z);
    } else {
      HighBytesZero(v / 0x100, n - 1, z, Pow256(n - 1));
    }
  }

  lemma {:induction false} ZeroBytes(z: nat)
    ensures LittleEnd(0, z) == Zeros(z)
  {
    if z == 0 {
    } else {
      ZeroBytes(z - 1);
    }
  }

  function Pow256(n: nat): nat {
    if n == 0 then 1 else 0x100 * Pow256(n - 1)
  }

  // The buffer is the RFC's padded message exactly up to the length whose bit count
  // still fits the source's 32-bit variable.
  lemma SourcePadExact(msg: seq<Byte>)
    requires |msg| < 0x8000_0000 - 128
    ensures SourcePad(msg) == RfcPad(msg) <==> |msg| < 0x2000_0000
  {
    PadForms(msg);
    LengthFieldExact(8 * |msg|);
    hide LittleEnd, ZeroCount, Head, Zeros, SourcePad, RfcPad;
    if SourcePad(msg) == RfcPad(msg) {
      SplitEqual(Head(msg, ZeroCount(|msg|)), LittleEnd(8 * |msg| % 0x1_0000_0000, 4) + Zeros(4),
                 Head(msg, ZeroCount(|msg|)), LittleEnd(8 * |msg|, 8));
    }
  }

  lemma PadForms(msg: seq<Byte>)
    requires |msg| < 0x8000_0000
    ensures SourcePad(msg) == Head(msg, ZeroCount(|msg|)) + (LittleEnd(8 * |msg| % 0x1_0000_0000, 4) + Zeros(4))
    ensures RfcPad(msg) == Head(msg, ZeroCount(|msg|)) + LittleEnd(8 * |msg|, 8)
  {
    NewLenIsRfc(|msg|);
    hide LittleEnd, ZeroCount, NewLen, Head, Zeros;
  }

  lemma LengthFieldExact(bits: nat)
    requires bits < 0x100_0000_0000
    ensures LittleEnd(bits % 0x1_0000_0000, 4) + Zeros(4) == LittleEnd(bits, 8) <==> bits < 0x1_0000_0000
  {
    if bits < 0x1_0000_0000 {
      assert Pow256(4) == 0x1_0000_0000;
      HighBytesZero(bits, 4, 4, Pow256(4));
    } else {
      FifthByte(bits);
      hide LittleEnd;
      assert (LittleEnd(bits % 0x1_0000_0000, 4) + Zeros(4))[4] == 0 != LittleEnd(bits, 8)[4];
    }
  }

  lemma SplitEqual(a: seq<Byte>, x: seq<Byte>, b: seq<Byte>, y: seq<Byte>)
    requires a + x == b + y && |x| == |y|
    ensures a == b && x == y
  {
    assert a == (a + x)[..|a|] && b == (b + y)[..|a|];
    assert x == (a + x)[|a|..] && y == (b + y)[|a|..];
  }

  lemma FifthByte(v: nat)
    ensures LittleEnd(v, 8)[4] == v / 0x1_0000_0000 % 0x100
  {
    var w1 := v / 0x100;
    var w2 := w1 / 0x100;
    var w3 := w2 / 0x100;
    ByteAbove(v, 8, 3);
    ByteAbove(w1, 7, 2);
    ByteAbove(w2, 6, 1);
    ByteAbove(w3, 5, 0);
    LowByte(w3 / 0x100, 4);
    hide LittleEnd;
  }

  lemma ByteAbove(v: nat, n: nat, k: nat)
    requires k + 1 < n
    ensures LittleEnd(v, n)[k + 1] == LittleEnd(v / 0x100, n - 1)[k]
  {
  }

  lemma LowByte(v: nat, n: nat)
    requires n > 0
    ensures LittleEnd(v, n)[0] == v % 0x100
  {
  }

  lemma {:induction false} LittleEndInjective(v: nat, w: nat, n: nat)
    requires v < Pow256(n) && w < Pow256(n) && LittleEnd(v, n) == LittleEnd(w, n)
    ensures v == w
  {
    if n == 0 {
    } else {
      assert LittleEnd(v, n)[1..] == LittleEnd(v / 0x100, n - 1);
      assert LittleEnd(w, n)[1..] == LittleEnd(w / 0x100, n - 1);
      assert LittleEnd(v, n)[0] == v % 0x100 && LittleEnd(w, n)[0] == w % 0x100;
      LittleEndInjective(v / 0x100, w / 0x100, n - 1);
    }
  }

  lemma Pow256Of8()
    ensures Pow256(8) == 0x1_0000_0000_0000_0000
  {
    assert Pow256(2) == 0x1_0000;
    assert Pow256(4) == 0x1_0000_0000;
    assert Pow256(6) == 0x1_0000_0000_0000;
  }

  // No two messages pad to the same blocks.
  lemma PaddingInjective(m1: seq<Byte>, m2: seq<Byte>)
    requires |m1| < 0x2000_0000_0000_0000 && |m2| < 0x2000_0000_0000_0000 && RfcPad(m1) == RfcPad(m2)
    ensures m1 == m2
  {
    hide LittleEnd, ZeroCount, Head, Pow256;
    SplitEqual(Head(m1, ZeroCount(|m1|)), LittleEnd(8 * |m1|, 8), Head(m2, ZeroCount(|m2|)), LittleEnd(8 * |m2|, 8));
    Pow256Of8();
    LittleEndInjective(8 * |m1|, 8 * |m2|, 8);
    assert m1 == Head(m1, ZeroCount(|m1|))[..|m1|] == Head(m2, ZeroCount(|m2|))[..|m2|] == m2;
  }

  // ---------- the digest ----------

  const INIT := Regs(0x67452301, 0xefcdab89, 0x98badcfe, 0x10325476)

  function WordAt(m: seq<Byte>, p: nat): Reg {
    if p + 4 <= |m| then (m[p] as int) + 0x100 * (m[p + 1] as int) + 0x1_0000 * (m[p + 2] as int)
        + 0x100_0000 * (m[p + 3] as int) else 0
  }

  function BlockAt(m: seq<Byte>, p: nat): Block {
    seq(16, j requires 0 <= j < 16 => WordAt(m, p + 4 * j))
  }

  // Each word is the one whose four bytes, low-order first, stand there.
  lemma BlockReads(m: seq<Byte>, p: nat, j: nat)
    requires p + 64 <= |m| && j < 16
    ensures LittleEnd(BlockAt(m, p)[j], 4) == m[p + 4 * j..p + 4 * j + 4]
  {
    var at := p + 4 * j;
    FourBytes(m[at], m[at + 1], m[at + 2], m[at + 3]);
    assert m[at..at + 4] == [m[at], m[at + 1], m[at + 2], m[at + 3]];
  }

  // The start values, as section 3.3 writes their bytes.
  lemma InitBytes()
    ensures LittleEnd(INIT.A, 4) == [0x01, 0x23, 0x45, 0x67] && LittleEnd(INIT.B, 4) == [0x89, 0xab, 0xcd, 0xef]
    ensures LittleEnd(INIT.C, 4) == [0xfe, 0xdc, 0xba, 0x98] && LittleEnd(INIT.D, 4) == [0x76, 0x54, 0x32, 0x10]
  {
    FourBytes(0x01, 0x23, 0x45, 0x67);
    FourBytes(0x89, 0xab, 0xcd, 0xef);
    FourBytes(0xfe, 0xdc, 0xba, 0x98);
    FourBytes(0x76, 0x54, 0x32, 0x10);
    hide LittleEnd;
  }

  function DigestBlocks(m: seq<Byte>, k: nat): Regs {
    if k == 0 then INIT else RfcBlock(DigestBlocks(m, k - 1), BlockAt(m, 64 * (k - 1)))
  }

  function RfcDigest(msg: seq<Byte>): Regs {
    DigestBlocks(RfcPad(msg), |RfcPad(msg)| / 64)
  }

  // The buffer md5 prepares; 64 further bytes are allocated but never read.
  method Prepare(initial: seq<Byte>) returns (msg: array<Byte>)
    requires |initial| < 0x8000_0000 - 128
    ensures fresh(msg) && msg.Length == NewLen(|initial|) + 64
    ensures msg[..NewLen(|initial|) + 8] == SourcePad(initial)
  {
    NewLenIsRfc(|initial|);
    var newLen := NewLen(|initial|);
    msg := new Byte[newLen + 64](_ => 0);
    forall i | 0 <= i < |initial| {
      msg[i] := initial[i];
    }
    msg[|initial|] := 128;
    var bitsLen := LittleEnd(8 * |initial| % 0x1_0000_0000, 4);
    forall i | 0 <= i < 4 {
      msg[newLen + i] := bitsLen[i];
    }
    var pad := SourcePad(initial);
    forall i | 0 <= i < newLen + 8 ensures msg[i] == pad[i] {
    }
  }

  // The 64 turns over one chunk.
  method Chunk(h: Regs, w: Block) returns (r: Regs)
    ensures r == Rolled(64, h, w)
  {
    var a, b, c, d := h.A, h.B, h.C, h.D;
    for i := 0 to 64
      invariant Regs(a, b, c, d) == Rolled(i, h, w)
    {
      hide RotL, T, And, Or, Xor, Not, Plus;
      var f, g;
      if i < 16 {
        f, g := Or(And(b, c), And(Not(b), d)), i;
      } else if i < 32 {
        f, g := Or(And(d, b), And(Not(d), c)), (5 * i + 1) % 16;
      } else if i < 48 {
        f, g := Xor(Xor(b, c), d), (3 * i + 5) % 16;
      } else {
        f, g := Xor(c, Or(b, Not(d))), 7 * i % 16;
      }
      var temp := d;
      d := c;
      c := b;
      b := Plus(b, RotL(Plus(Plus(Plus(a, f), T(i)), w[g]), Shift(i)));
      a := temp;
    }
    r := Regs(a, b, c, d);
  }

  // One more chunk of the loop is one more block of the digest.
  lemma DigestStep(msg: seq<Byte>, k: nat)
    ensures DigestBlocks(msg, k + 1) == Sum(DigestBlocks(msg, k),
        Rolled(64, DigestBlocks(msg, k), BlockAt(msg, 64 * k)))
  {
    hide RfcBlock, Sum, BlockAt, Rolled;
    ChunkIsRfcBlock(DigestBlocks(msg, k), BlockAt(msg, 64 * k));
  }

  // The loop over the n chunks of a padded message.
  method Chunks(msg: seq<Byte>, ghost n: nat) returns (h: Regs)
    requires |msg| == 64 * n
    ensures h == DigestBlocks(msg, n)
  {
    h := INIT;
    DigestStart(msg);
    hide Rolled, Plus, BlockAt, DigestBlocks;
    var offset: nat := 0;
    ghost var k: nat := 0;
    while offset + 8 < |msg|
      invariant offset == 64 * k && k <= n && h == DigestBlocks(msg, k)
      decreases |msg| - offset
    {
      var w := BlockAt(msg, offset);
      var r := Chunk(h, w);
      DigestStep(msg, k);
      h := Regs(Plus(h.A, r.A), Plus(h.B, r.B), Plus(h.C, r.C), Plus(h.D, r.D));
      offset := offset + 64;
      k := k + 1;
    }
  }

  lemma DigestStart(msg: seq<Byte>)
    ensures DigestBlocks(msg, 0) == INIT
  {
  }

  // md5: the source's routine computes the RFC's digest of every message under 2^29 bytes.
  method Md5Digest(initial: seq<Byte>) returns (h: Regs)
    requires |initial| < 0x2000_0000
    ensures h == RfcDigest(initial)
  {
    hide DigestBlocks;
    var msg := Prepare(initial);
    SourcePadExact(initial);
    h := Chunks(msg[..NewLen(|initial|) + 8], |RfcPad(initial)| / 64);
  }
}

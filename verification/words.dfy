/**
 Word and alignment arithmetic shared by the guest wrappers and the host device.
 The two sides pad a payload with different expressions; `PaddingAgrees` is the
 reason their cursors move by the same amount.
 */
module Words {

  type Word = x: int | 0 <= x < 0x1_0000_0000
  type Byte = x: int | 0 <= x < 0x100

  datatype Option<+T> = None | Some(value: T)

  // Unsigned 32-bit subtraction, as the host's `dataptr[0] -= n` computes it.
  function Sub32(x: Word, y: int): (r: Word) {
    (x - y) % 0x1_0000_0000
  }

  // The host's ALIGNED macro, on bytes.
  function Aligned(x: nat): nat {
    if x % 8 != 0 then (x / 8 + 1) * 8 else x
  }

  // The least multiple of eight that is not below x.
  lemma AlignedIs(x: nat)
    ensures Aligned(x) == (x + 7) / 8 * 8
  {
  }

  // The host's ALIGNBO macro, on bytes.
  function AlignBo(x: nat): nat {
    if x % 16 != 0 then (x / 16 + 1) * 16 else x
  }

  // Words copied for `cb` bytes (both sides round a byte count up this way).
  function WordCount(cb: nat): nat {
    if cb % 4 != 0 then cb / 4 + 1 else cb / 4
  }

  // v as n bytes, low-order byte first.
  function LittleEnd(v: nat, n: nat): (r: seq<Byte>)
    ensures |r| == n
  {
    if n == 0 then [] else [v % 0x100] + LittleEnd(v / 0x100, n - 1)
  }

  // A word and a half word from their bytes.
  lemma FourBytes(b0: Byte, b1: Byte, b2: Byte, b3: Byte)
    ensures LittleEnd((b0 as int) + 0x100 * b1 + 0x1_0000 * b2 + 0x100_0000 * b3, 4) == [b0, b1, b2, b3]
  {
    var v2: nat := b2 + 0x100 * b3;
    var v1: nat := b1 + 0x100 * v2;
    var v0: nat := b0 + 0x100 * v1;
    assert v0 == (b0 as int) + 0x100 * b1 + 0x1_0000 * b2 + 0x100_0000 * b3;
    assert LittleEnd(b3, 1) == [b3];
    assert LittleEnd(v2, 2) == [b2, b3];
    assert LittleEnd(v1, 3) == [b1, b2, b3];
    assert LittleEnd(v0, 4) == [b0] + LittleEnd(v1, 3);
  }

  lemma TwoBytes(b0: Byte, b1: Byte)
    ensures LittleEnd((b0 as int) + 0x100 * b1, 2) == [b0, b1]
  {
    var v: nat := b0 + 0x100 * b1;
    assert LittleEnd(b1, 1) == [b1];
    assert LittleEnd(v, 2) == [b0] + LittleEnd(b1, 1);
  }

  // The guest keeps its data cursor even.
  function PadEven(n: nat): nat {
    if n % 2 != 0 then n + 1 else n
  }

  // A product taken in two parts.
  lemma MulSplit(c: int, x: int, y: int)
    ensures x * c + (y - x) * c == y * c
  {
    assert x * c + (y - x) * c == (x + (y - x)) * c;
  }

  lemma EightParts(q: nat, r: nat)
    requires r < 8
    ensures (8 * q + r) / 4 == 2 * q + r / 4 && (8 * q + r) % 4 == r % 4
    ensures (8 * q + r) / 8 == q && (8 * q + r) % 8 == r
  {
  }

  // A byte count in eights: how many words, and how many once rounded to even.
  lemma WordsOfEights(q: nat, r: nat)
    requires r < 8
    ensures WordCount(8 * q + r) == 2 * q + (if r == 0 then 0 else if r <= 4 then 1 else 2)
    ensures PadEven(WordCount(8 * q + r)) == 2 * q + (if r == 0 then 0 else 2)
    ensures Aligned(8 * q + r) == 8 * q + (if r == 0 then 0 else 8)
  {
    EightParts(q, r);
  }

  // The guest's round-to-even word count is the host's ALIGNED byte count.
  lemma PaddingAgrees(cb: nat)
    ensures 4 * PadEven(WordCount(cb)) == Aligned(cb)
    ensures WordCount(Aligned(cb)) == PadEven(WordCount(cb))
  {
    var q, r := cb / 8, cb % 8;
    assert cb == 8 * q + r;
    WordsOfEights(q, r);
    WordsOfEights(if r == 0 then q else q + 1, 0);
    hide WordCount, PadEven, Aligned;
  }

  lemma AlignBoBounds(x: nat)
    ensures x <= AlignBo(x) < x + 16 && AlignBo(x) % 16 == 0
    ensures AlignBo(x) == 0 <==> x == 0
  {
  }
}

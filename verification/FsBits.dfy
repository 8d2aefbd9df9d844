/** The two encodings inside file system blocks: the free map, eight blocks to a byte, and the
    block numbers in an indirect block, four bytes each, low byte first. */
module FsBits {

  const BSIZE: int := 512
  const NINDIRECT: int := 128
  const UINT: int := 0x1_0000_0000

  // ----- the free map

  function Mask(i: int): bv8 {
    if i == 0 then 1 else if i == 1 then 2 else if i == 2 then 4 else if i == 3 then 8
    else if i == 4 then 16 else if i == 5 then 32 else if i == 6 then 64 else 128
  }

  predicate IsSet(bits: seq<bv8>, b: int)
    requires 0 <= b < 8 * |bits|
  {
    bits[b / 8] & Mask(b % 8) != 0
  }

  function SetBit(bits: seq<bv8>, b: int): (r: seq<bv8>)
    requires 0 <= b < 8 * |bits|
    ensures |r| == |bits|
  {
    bits[b / 8 := bits[b / 8] | Mask(b % 8)]
  }

  function ClearBit(bits: seq<bv8>, b: int): (r: seq<bv8>)
    requires 0 <= b < 8 * |bits|
    ensures |r| == |bits|
  {
    bits[b / 8 := bits[b / 8] & !Mask(b % 8)]
  }

  lemma ByteSet(x: bv8, i: int, j: int)
    requires 0 <= i < 8 && 0 <= j < 8
    ensures (x | Mask(i)) & Mask(j) != 0 <==> i == j || x & Mask(j) != 0
    ensures (x & !Mask(i)) & Mask(j) != 0 <==> i != j && x & Mask(j) != 0
  {
  }

  /** Setting one bit sets that bit and leaves all others. */
  lemma SetBitExact(bits: seq<bv8>, b: int, x: int)
    requires 0 <= b < 8 * |bits| && 0 <= x < 8 * |bits|
    ensures IsSet(SetBit(bits, b), x) <==> x == b || IsSet(bits, x)
  {
    hide Mask;
    if x / 8 == b / 8 { ByteSet(bits[b / 8], b % 8, x % 8); }
  }

  lemma ClearBitExact(bits: seq<bv8>, b: int, x: int)
    requires 0 <= b < 8 * |bits| && 0 <= x < 8 * |bits|
    ensures IsSet(ClearBit(bits, b), x) <==> x != b && IsSet(bits, x)
  {
    hide Mask;
    if x / 8 == b / 8 { ByteSet(bits[b / 8], b % 8, x % 8); }
  }

  // ----- words

  newtype Byte = x: int | 0 <= x < 256

  type Block = b: seq<Byte> | |b| == BSIZE witness seq(BSIZE, _ => 0)

  function Word(b: Block, j: int): (w: int)
    requires 0 <= j < NINDIRECT
    ensures 0 <= w < UINT
  {
    b[4 * j] as int + 256 * b[4 * j + 1] as int + 65536 * b[4 * j + 2] as int + 16777216 * b[4 * j + 3] as int
  }

  function PutWord(b: Block, j: int, w: int): (r: Block)
    requires 0 <= j < NINDIRECT && 0 <= w < UINT
  {
    b[4 * j := (w % 256) as Byte][4 * j + 1 := (w / 256 % 256) as Byte]
     [4 * j + 2 := (w / 65536 % 256) as Byte][4 * j + 3 := (w / 16777216) as Byte]
  }

  function Zeros(): (r: Block)
    ensures forall i :: 0 <= i < BSIZE ==> r[i] == 0
  {
    seq(BSIZE, _ => 0)
  }

  /** Storing a word stores that word and leaves all others. */
  lemma PutWordExact(b: Block, j: int, w: int, x: int)
    requires 0 <= j < NINDIRECT && 0 <= w < UINT && 0 <= x < NINDIRECT
    ensures Word(PutWord(b, j, w), x) == if x == j then w else Word(b, x)
  {
    if x == j { Digits(w); }
  }

  lemma Digits(w: int)
    requires 0 <= w < UINT
    ensures w % 256 + 256 * (w / 256 % 256) + 65536 * (w / 65536 % 256) + 16777216 * (w / 16777216) == w
  {
  }

  lemma ZeroWord(j: int)
    requires 0 <= j < NINDIRECT
    ensures Word(Zeros(), j) == 0
  {
  }
}

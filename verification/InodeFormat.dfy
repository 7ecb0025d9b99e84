/** Layout of files on disk (fs.h, fs.c): the free bitmap, block pointers, and who owns which block. */
module InodeFormat {
  const BSIZE: nat := 512
  const NDIRECT: nat := 12
  const NINDIRECT: nat := 128
  const MAXFILE: nat := 140     // NDIRECT + NINDIRECT
  const BPB: nat := 4096        // bitmap bits per block
  const SLOTS: nat := 141       // 12 direct pointers, the indirect pointer, 128 indirect entries

  type Data = seq<int>          // the bytes of a block

  datatype Dinode = Dinode(kind: int, nlink: int, size: nat, addrs: seq<int>)

  // ---------- little-endian words ----------

  // The j-th uint of an indirect block.
  function Entry(b: Data, j: nat): int {
    if 4 * j + 4 <= |b| then b[4 * j] + 256 * b[4 * j + 1] + 65536 * b[4 * j + 2] + 16777216 * b[4 * j + 3] else 0
  }

  function Encode(x: nat): Data {
    [x % 256, x / 256 % 256, x / 256 / 256 % 256, x / 256 / 256 / 256]
  }

  function WithEntry(b: Data, j: nat, x: nat): Data
    requires 4 * j + 4 <= |b|
  {
    b[..4 * j] + Encode(x) + b[4 * j + 4..]
  }

  lemma EncodeDigits(x: nat)
    ensures var e := Encode(x); |e| == 4 && e[0] + 256 * e[1] + 65536 * e[2] + 16777216 * e[3] == x
  {
  }

  lemma EntryRoundTrip(b: Data, j: nat, x: nat, i: nat)
    requires 4 * j + 4 <= |b|
    ensures |WithEntry(b, j, x)| == |b|
    ensures Entry(WithEntry(b, j, x), i) == if i == j then x else Entry(b, i)
  {
    EncodeDigits(x);
    hide Encode;
    var w, e := WithEntry(b, j, x), Encode(x);
    if i == j {
      assert w[4 * j] == e[0] && w[4 * j + 1] == e[1] && w[4 * j + 2] == e[2] && w[4 * j + 3] == e[3];
    } else if 4 * i + 4 <= |b| {
      assert forall m :: 4 * i <= m < 4 * i + 4 ==> w[m] == b[m];
    }
  }

  function Zero(): Data {
    seq(BSIZE, _ => 0)
  }

  // ---------- the bitmap ----------

  function Mask(k: nat): bv8
    requires k < 8
  {
    match k case 0 => 1 case 1 => 2 case 2 => 4 case 3 => 8 case 4 => 16 case 5 => 32 case 6 => 64 case _ => 128
  }

  predicate Bit(x: bv8, k: nat)
    requires k < 8
  {
    x & Mask(k) != 0
  }

  lemma MaskSets(x: bv8, k: nat, j: nat)
    requires k < 8 && j < 8
    ensures Bit(x | Mask(k), j) <==> j == k || Bit(x, j)
    ensures Bit(x & !Mask(k), j) <==> j != k && Bit(x, j)
  {
  }

  type Bitmap = seq<seq<bv8>>

  predicate BitmapOk(bm: Bitmap, size: nat) {
    size <= |bm| * BPB && forall i :: 0 <= i < |bm| ==> |bm[i]| == BSIZE
  }

  // The bit of block b: bitmap block b / BPB, byte (b % BPB) / 8, bit b % 8.
  predicate Used(bm: Bitmap, b: nat)
    requires b / BPB < |bm| && |bm[b / BPB]| == BSIZE
  {
    Bit(bm[b / BPB][b % BPB / 8], b % BPB % 8)
  }

  function UsedBits(bm: Bitmap, size: nat): (used: seq<bool>)
    requires BitmapOk(bm, size)
    ensures |used| == size
  {
    seq(size, b requires 0 <= b < size => InBitmap(bm, size, b); Used(bm, b))
  }

  lemma InBitmap(bm: Bitmap, size: nat, b: nat)
    requires BitmapOk(bm, size) && b < size
    ensures b / BPB < |bm|
  {
  }

  // The bit that balloc tests in round bi over the bitmap block for blocks from base on.
  lemma BitOfRound(bm: Bitmap, size: nat, base: nat, bi: nat)
    requires BitmapOk(bm, size) && base % BPB == 0 && bi < BPB && base + bi < size
    ensures base / BPB < |bm| && |bm[base / BPB]| == BSIZE
    ensures UsedBits(bm, size)[base + bi] <==> Bit(bm[base / BPB][bi / 8], bi % 8)
  {
    hide Bit;
    InBitmap(bm, size, base + bi);
    assert (base + bi) / BPB == base / BPB && (base + bi) % BPB == bi;
  }

  // data[bi/8] |= m and data[bi/8] &= ~m
  function PutMask(x: bv8, k: nat, on: bool): bv8
    requires k < 8
  {
    if on then x | Mask(k) else x & !Mask(k)
  }

  lemma PutMaskReads(x: bv8, k: nat, on: bool, j: nat)
    requires k < 8 && j < 8
    ensures Bit(PutMask(x, k, on), j) <==> if j == k then on else Bit(x, j)
  {
    MaskSets(x, k, j);
  }

  function PutBit(bm: Bitmap, q: nat, r: nat, k: nat, on: bool): Bitmap
    requires q < |bm| && r < |bm[q]| && k < 8
  {
    bm[q := bm[q][r := PutMask(bm[q][r], k, on)]]
  }

  lemma PutBitReads(bm: Bitmap, q: nat, r: nat, k: nat, on: bool, q': nat, r': nat, k': nat)
    requires q < |bm| && r < |bm[q]| && k < 8 && q' < |bm| && r' < |bm[q']| && k' < 8
    ensures Bit(PutBit(bm, q, r, k, on)[q'][r'], k') == if q == q' && r == r' && k == k' then on else Bit(bm[q'][r'], k')
  {
    hide Bit, PutMask;
    PutMaskReads(bm[q][r], k, on, k');
  }

  function WithBit(bm: Bitmap, b: nat, on: bool): Bitmap
    requires b / BPB < |bm| && |bm[b / BPB]| == BSIZE
  {
    PutBit(bm, b / BPB, b % BPB / 8, b % BPB % 8, on)
  }

  lemma WithBitUsed(bm: Bitmap, size: nat, b: nat, on: bool)
    requires BitmapOk(bm, size) && b < size && b / BPB < |bm|
    ensures BitmapOk(WithBit(bm, b, on), size)
    ensures UsedBits(WithBit(bm, b, on), size) == UsedBits(bm, size)[b := on]
  {
    forall c | 0 <= c < size ensures UsedBits(WithBit(bm, b, on), size)[c] == UsedBits(bm, size)[b := on][c] {
      InBitmap(bm, size, c);
      OneBit(bm, b, c, on);
    }
  }

  lemma OneBit(bm: Bitmap, b: nat, c: nat, on: bool)
    requires b / BPB < |bm| && |bm[b / BPB]| == BSIZE && c / BPB < |bm| && |bm[c / BPB]| == BSIZE
    ensures Used(WithBit(bm, b, on), c) == if c == b then on else Used(bm, c)
  {
    SamePlace(b, c);
    PutBitReads(bm, b / BPB, b % BPB / 8, b % BPB % 8, on, c / BPB, c % BPB / 8, c % BPB % 8);
  }

  lemma SamePlace(b: nat, c: nat)
    ensures b == c <==> b / BPB == c / BPB && b % BPB / 8 == c % BPB / 8 && b % BPB % 8 == c % BPB % 8
  {
  }
}

/** What the two streaming digests share: a message is absorbed in 64-byte blocks. */
module BlockHash {
  import opened Common

  type Block = b: seq<bv8> | |b| == 64 witness seq(64, _ => 0)

  const TWO_29 := 0x2000_0000
  const TWO_32 := 0x1_0000_0000
  const TWO_61 := 0x2000_0000_0000_0000
  const TWO_64 := 0x1_0000_0000_0000_0000

  type uint32 = x: int | 0 <= x < TWO_32

  /** The state reached from `s` by compressing the full blocks of `m` in order; a tail of
      fewer than 64 bytes is not looked at. */
  ghost function Fold<S>(f: (S, Block) -> S, s: S, m: seq<bv8>): S
  {
    if |m| < 64 then s else Fold(f, f(s, m[..64]), m[64..])
  }

  lemma {:induction false} FoldAppend<S>(f: (S, Block) -> S, s: S, a: seq<bv8>, b: seq<bv8>)
    requires |a| % 64 == 0
    ensures Fold(f, s, a + b) == Fold(f, Fold(f, s, a), b)
    decreases |a|
  {
    if |a| == 0 {
      assert a + b == b;
    } else {
      assert (a + b)[..64] == a[..64];
      assert (a + b)[64..] == a[64..] + b;
      FoldAppend(f, f(s, a[..64]), a[64..], b);
    }
  }

  /** One more full block after a whole number of blocks. */
  lemma FoldBlock<S>(f: (S, Block) -> S, s: S, a: seq<bv8>, block: Block)
    requires |a| % 64 == 0
    ensures Fold(f, s, a + block) == f(Fold(f, s, a), block)
  {
    FoldAppend(f, s, a, block);
    assert block[..64] == block && |block[64..]| == 0;
  }

  /** Bytes that do not complete a block leave the folded state alone. */
  lemma FoldTail<S>(f: (S, Block) -> S, s: S, a: seq<bv8>, tail: seq<bv8>)
    requires |a| % 64 == 0 && |tail| < 64
    ensures Fold(f, s, a + tail) == Fold(f, s, a)
  {
    FoldAppend(f, s, a, tail);
  }

  /** The bytes of `m` that fill whole blocks. */
  function Full(m: seq<bv8>): (r: seq<bv8>)
    ensures |r| % 64 == 0
  {
    m[..|m| - |m| % 64]
  }

  /** The bytes of `m` still waiting for their block to fill up. */
  function Tail(m: seq<bv8>): (r: seq<bv8>)
    ensures |r| == |m| % 64
    ensures m == Full(m) + r
  {
    m[|m| - |m| % 64..]
  }

  lemma TailOf(m: seq<bv8>, full: seq<bv8>, tail: seq<bv8>)
    requires m == full + tail && |full| % 64 == 0 && |tail| < 64
    ensures Full(m) == full && Tail(m) == tail
  {
    assert |m| % 64 == |tail|;
  }

  lemma FoldFull<S>(f: (S, Block) -> S, s: S, m: seq<bv8>)
    ensures Fold(f, s, m) == Fold(f, s, Full(m))
  {
    FoldTail(f, s, Full(m), Tail(m));
  }

  /** Completing the waiting tail of `m` to one block absorbs exactly that block. */
  lemma AbsorbBlock<S>(f: (S, Block) -> S, s: S, m: seq<bv8>, more: seq<bv8>, block: Block)
    requires block == Tail(m) + more
    ensures Fold(f, s, m + more) == f(Fold(f, s, m), block)
  {
    FoldFull(f, s, m);
    assert m + more == Full(m) + block;
    FoldBlock(f, s, Full(m), block);
  }

  lemma TailEmptied(m: seq<bv8>, more: seq<bv8>)
    requires |Tail(m)| + |more| == 64
    ensures Tail(m + more) == []
  {}

  lemma TailGrows(m: seq<bv8>, more: seq<bv8>)
    requires |Tail(m)| + |more| < 64
    ensures Tail(m + more) == Tail(m) + more && Full(m + more) == Full(m)
  {
    assert m + more == Full(m) + (Tail(m) + more);
    TailOf(m + more, Full(m), Tail(m) + more);
  }

  /** Bytes that leave the tail short of a block leave the folded state alone. */
  lemma AbsorbTail<S>(f: (S, Block) -> S, s: S, m: seq<bv8>, more: seq<bv8>)
    requires |Tail(m)| + |more| < 64
    ensures Fold(f, s, m + more) == Fold(f, s, m)
  {
    FoldFull(f, s, m);
    FoldFull(f, s, m + more);
    TailGrows(m, more);
  }

  function Zeros(n: nat): (r: seq<bv8>)
    ensures |r| == n
  {
    seq(n, _ => 0)
  }

  /** Number of zero bytes between the 0x80 mark and the length field. */
  function ZeroCount(n: nat): (k: nat)
    ensures k < 64 && (n + 1 + k + 8) % 64 == 0
  {
    (119 - n % 64) % 64
  }

  /** The two-word byte count of a context: n bytes, less 2^32 for each of the `lost` carries. */
  predicate Counted(total0: uint32, total1: uint32, n: nat, lost: int) {
    total0 == n % TWO_32 && total1 == (n / TWO_32 - lost) % TWO_32
  }

  /** The count after a chunk of `len` bytes, whose length is narrowed to 32 bits. */
  lemma CountSplits(n: nat, len: nat, lost: int)
    ensures var low := (n % TWO_32 + len % TWO_32) % TWO_32;
            var carry := if low < len % TWO_32 then 1 else 0;
            && low == (n + len) % TWO_32
            && ((n / TWO_32 - lost) % TWO_32 + carry) % TWO_32
               == ((n + len) / TWO_32 - (lost + len / TWO_32)) % TWO_32
  {
    var low := (n % TWO_32 + len % TWO_32) % TWO_32;
    var carry := if low < len % TWO_32 then 1 else 0;
    assert (n + len) / TWO_32 == n / TWO_32 + len / TWO_32 + carry;
  }

  /** The low word alone decides how many bytes are waiting. */
  lemma LowBits(total0: uint32, total1: uint32, n: nat, lost: int)
    requires Counted(total0, total1, n, lost)
    ensures total0 % 64 == n % 64
  {}

  // ---- the three moves of an update, after `pos` bytes of the chunk ----

  lemma TakeFill<S>(f: (S, Block) -> S, s: S, m: seq<bv8>, more: seq<bv8>, block: Block)
    requires block == Tail(m) + more
    ensures Fold(f, s, m + more) == f(Fold(f, s, m), block)
    ensures Tail(m + more) == []
  {
    AbsorbBlock(f, s, m, more, block);
    TailEmptied(m, more);
  }

  lemma TakeBlock<S>(f: (S, Block) -> S, s: S, m: seq<bv8>, input: seq<bv8>, pos: nat)
    requires pos + 64 <= |input| && Tail(m + input[..pos]) == []
    ensures Fold(f, s, m + input[..pos + 64]) == f(Fold(f, s, m + input[..pos]), input[pos..pos + 64])
    ensures Tail(m + input[..pos + 64]) == []
  {
    var block := input[pos..pos + 64];
    assert m + input[..pos] + block == m + input[..pos + 64];
    TakeFill(f, s, m + input[..pos], block, block);
  }

  lemma LeaveRest<S>(f: (S, Block) -> S, s: S, m: seq<bv8>, input: seq<bv8>, pos: nat)
    requires pos <= |input| && |Tail(m + input[..pos])| + |input| - pos < 64
    ensures Fold(f, s, m + input) == Fold(f, s, m + input[..pos])
    ensures Tail(m + input) == Tail(m + input[..pos]) + input[pos..]
  {
    assert m + input[..pos] + input[pos..] == m + input;
    AbsorbTail(f, s, m + input[..pos], input[pos..]);
    TailGrows(m + input[..pos], input[pos..]);
  }

  // ---- padding and the 64-bit length field ----

  /** How much of the 64-byte padding table is absorbed when `last` bytes are waiting. */
  function PadLength(last: nat): nat
    requires last < 64
  {
    if last < 56 then 56 - last else 120 - last
  }

  lemma PaddingPrefix(n: nat)
    ensures PadLength(n % 64) <= 64
    ensures ([0x80] + Zeros(63))[..PadLength(n % 64)] == [0x80] + Zeros(ZeroCount(n))
  {
    assert PadLength(n % 64) == 1 + ZeroCount(n);
  }

  function Bytes(s: seq<byte>): (r: seq<bv8>)
    ensures |r| == |s|
  {
    seq(|s|, i requires 0 <= i < |s| => s[i] as bv8)
  }

  lemma BytesJoin(a: seq<byte>, b: seq<byte>)
    ensures Bytes(a) + Bytes(b) == Bytes(a + b)
  {}

  /** The low k bytes of n, least significant first. */
  function LittleEndian(n: nat, k: nat): (r: seq<byte>)
    ensures |r| == k
  {
    if k == 0 then [] else [n % 256] + LittleEndian(n / 256, k - 1)
  }

  /** The low k bytes of n, most significant first. */
  function BigEndian(n: nat, k: nat): (r: seq<byte>)
    ensures |r| == k
  {
    if k == 0 then [] else BigEndian(n / 256, k - 1) + [n % 256]
  }

  function Pow256(k: nat): (p: nat)
    ensures p > 0
  {
    if k == 0 then 1 else 256 * Pow256(k - 1)
  }

  lemma BigEndian4(n: uint32)
    ensures BigEndian(n, 4) == [n / 0x100_0000, n / 0x1_0000 % 256, n / 0x100 % 256, n % 256]
  {
    var n1, n2, n3 := n / 0x100, n / 0x1_0000, n / 0x100_0000;
    assert n1 / 256 == n2 && n2 / 256 == n3 && n3 / 256 == 0 && n3 % 256 == n3;
    assert BigEndian(n3, 1) == BigEndian(0, 0) + [n3];
    assert BigEndian(n2, 2) == BigEndian(n3, 1) + [n2 % 256];
    assert BigEndian(n1, 3) == BigEndian(n2, 2) + [n1 % 256];
  }

  lemma LittleEndian4(n: uint32)
    ensures LittleEndian(n, 4) == [n % 256, n / 0x100 % 256, n / 0x1_0000 % 256, n / 0x100_0000]
  {
    var n1, n2, n3 := n / 0x100, n / 0x1_0000, n / 0x100_0000;
    assert n1 / 256 == n2 && n2 / 256 == n3 && n3 / 256 == 0 && n3 % 256 == n3;
    assert LittleEndian(n3, 1) == [n3] + LittleEndian(0, 0);
    assert LittleEndian(n2, 2) == [n2 % 256] + LittleEndian(n3, 1);
    assert LittleEndian(n1, 3) == [n1 % 256] + LittleEndian(n2, 2);
  }

  lemma Quotient(n: nat, q: nat, r: nat)
    requires n == 256 * q + r && r < 256
    ensures n / 256 == q && n % 256 == r
  {}

  lemma ShiftOut(high: nat, low: nat, k: nat)
    requires k > 0 && low < Pow256(k)
    ensures (high * Pow256(k) + low) % 256 == low % 256
    ensures (high * Pow256(k) + low) / 256 == high * Pow256(k - 1) + low / 256
  {
    var x := high * Pow256(k - 1);
    assert high * Pow256(k) == 256 * x;
    Quotient(256 * x + low, x + low / 256, low % 256);
  }

  lemma {:induction false} BigEndianJoin(high: nat, low: nat, j: nat, k: nat)
    requires low < Pow256(k)
    ensures BigEndian(high * Pow256(k) + low, j + k) == BigEndian(high, j) + BigEndian(low, k)
  {
    if k > 0 {
      ShiftOut(high, low, k);
      BigEndianJoin(high, low / 256, j, k - 1);
    }
  }

  lemma {:induction false} LittleEndianJoin(high: nat, low: nat, j: nat, k: nat)
    requires low < Pow256(k)
    ensures LittleEndian(high * Pow256(k) + low, j + k) == LittleEndian(low, k) + LittleEndian(high, j)
  {
    if k > 0 {
      ShiftOut(high, low, k);
      LittleEndianJoin(high, low / 256, j, k - 1);
    }
  }

  /** The bit count Finish computes from the two words: the shifts keep disjoint bits, so the
      source's `or` is a sum. */
  function HighWord(total0: uint32, total1: uint32): uint32 {
    (total0 / 0x2000_0000 + total1 * 8) % TWO_32
  }

  function LowWord(total0: uint32): uint32 {
    total0 * 8 % TWO_32
  }

  /** 8 * (n - 2^32 * lost) modulo 2^64: what the two-word count encodes, in bits. */
  function BitCount(n: nat, lost: int): (r: nat)
    ensures r < TWO_64
  {
    8 * (n - TWO_32 * lost) % TWO_64
  }

  lemma Remainder(x: int, r: int, k: int)
    requires x == r + TWO_64 * k && 0 <= r < TWO_64
    ensures x % TWO_64 == r
  {}

  lemma WordsSplit(total0: uint32, total1: uint32)
    ensures HighWord(total0, total1) * TWO_32 + LowWord(total0) == 8 * (total0 + TWO_32 * total1) % TWO_64
  {
    var c := total0 / 0x2000_0000;
    var k := (c + total1 * 8) / TWO_32;
    assert total0 * 8 % TWO_32 == 8 * total0 - TWO_32 * c;
    assert (c + total1 * 8) % TWO_32 == c + total1 * 8 - TWO_32 * k;
    Remainder(8 * (total0 + TWO_32 * total1), (c + total1 * 8 - TWO_32 * k) * TWO_32 + 8 * total0 - TWO_32 * c, k);
  }

  lemma BitCountSplits(total0: uint32, total1: uint32, n: nat, lost: int)
    requires Counted(total0, total1, n, lost)
    ensures BitCount(n, lost) == HighWord(total0, total1) * TWO_32 + LowWord(total0)
  {
    WordsSplit(total0, total1);
    var q := (n / TWO_32 - lost) / TWO_32;
    var d := total0 + TWO_32 * total1;
    assert n - TWO_32 * lost == d + TWO_64 * q;
    Remainder(8 * (n - TWO_32 * lost), 8 * d % TWO_64, 8 * q + 8 * d / TWO_64);
  }

  lemma Pow256Of4()
    ensures Pow256(4) == TWO_32
  {
    assert Pow256(2) == 65536;
  }

  lemma {:induction false} BigEndianInjective(x: nat, y: nat, k: nat)
    requires x < Pow256(k) && y < Pow256(k)
    requires BigEndian(x, k) == BigEndian(y, k)
    ensures x == y
  {
    if k > 0 {
      assert BigEndian(x, k)[k - 1] == BigEndian(y, k)[k - 1];
      assert BigEndian(x, k)[..k - 1] == BigEndian(y, k)[..k - 1];
      BigEndianInjective(x / 256, y / 256, k - 1);
    }
  }

  lemma {:induction false} LittleEndianInjective(x: nat, y: nat, k: nat)
    requires x < Pow256(k) && y < Pow256(k)
    requires LittleEndian(x, k) == LittleEndian(y, k)
    ensures x == y
  {
    if k > 0 {
      assert LittleEndian(x, k)[0] == LittleEndian(y, k)[0];
      assert LittleEndian(x, k)[1..] == LittleEndian(y, k)[1..];
      LittleEndianInjective(x / 256, y / 256, k - 1);
    }
  }

  lemma Pow256Of8()
    ensures Pow256(8) == TWO_64
  {
    assert Pow256(4) == TWO_32 by { Pow256Of4(); }
    assert Pow256(6) == 0x1_0000 * TWO_32;
  }

  /** For a message RFC lengths can express, the encoded count is right exactly when no carry was lost. */
  lemma BitCountExact(n: nat, lost: nat)
    requires n < TWO_61 && TWO_32 * lost <= n
    ensures BitCount(n, lost) == 8 * n <==> lost == 0
  {}

  /** The low-order 64 bits of the count are right exactly when the carries lost are a multiple of 2^29. */
  lemma BitCountExactMod(n: nat, lost: nat)
    requires TWO_32 * lost <= n
    ensures BitCount(n, lost) == 8 * n % TWO_64 <==> lost % TWO_29 == 0
  {
    var q, r := lost / TWO_29, lost % TWO_29;
    var b := 8 * n % TWO_64;
    assert 8 * (n - TWO_32 * lost) == 8 * n - TWO_64 * q - 8 * TWO_32 * r;
    if b >= 8 * TWO_32 * r {
      Remainder(8 * (n - TWO_32 * lost), b - 8 * TWO_32 * r, 8 * n / TWO_64 - q);
    } else {
      Remainder(8 * (n - TWO_32 * lost), b - 8 * TWO_32 * r + TWO_64, 8 * n / TWO_64 - q - 1);
    }
  }

  lemma Distributes(p: nat, a: int, b: int)
    ensures p * (a - b) == p * a - p * b && p * (b - a) == p * b - p * a
  {}

  lemma AtLeast(p: nat, k: nat)
    requires k > 0
    ensures p * k >= p
  {}

  lemma ModOf(x: nat, p: nat, q: nat, r: nat)
    requires p > 0 && x == p * q + r && r < p
    ensures x % p == r
  {
    Distributes(p, x / p, q);
    if x / p > q { AtLeast(p, x / p - q); }
    if x / p < q { AtLeast(p, q - x / p); }
  }

  /** Only the low-order bytes count. */
  lemma {:induction false} LittleEndianMod(n: nat, k: nat)
    ensures LittleEndian(n % Pow256(k), k) == LittleEndian(n, k)
  {
    if k > 0 {
      var p := Pow256(k - 1);
      var q := n / (256 * p);
      var r := n % (256 * p);
      assert n == 256 * p * q + r;
      assert n == 256 * (p * q) + r;
      assert n / 256 == p * q + r / 256 && n % 256 == r % 256;
      assert r / 256 < p;
      ModOf(n / 256, p, q, r / 256);
      LittleEndianMod(n / 256, k - 1);
    }
  }

  function Rotl(x: bv32, n: bv32): bv32
    requires n <= 32
  {
    (x << n) | (x >> (32 - n))
  }

  ghost function Concat(chunks: seq<seq<bv8>>): seq<bv8> {
    if |chunks| == 0 then [] else Concat(chunks[..|chunks| - 1]) + chunks[|chunks| - 1]
  }

  ghost function Carries(chunks: seq<seq<bv8>>): nat {
    if |chunks| == 0 then 0 else Carries(chunks[..|chunks| - 1]) + |chunks[|chunks| - 1]| / TWO_32
  }

  lemma {:induction false} CarriesBound(chunks: seq<seq<bv8>>)
    ensures TWO_32 * Carries(chunks) <= |Concat(chunks)|
    ensures Carries(chunks) == 0 <==> forall c :: c in chunks ==> |c| < TWO_32
  {
    if |chunks| > 0 {
      var rest, last := chunks[..|chunks| - 1], chunks[|chunks| - 1];
      CarriesBound(rest);
      assert chunks == rest + [last];
    }
  }

  /** memcpy into the block buffer. */
  method CopyInto(buffer: array<bv8>, at: nat, bytes: seq<bv8>)
    requires at + |bytes| <= buffer.Length
    modifies buffer
    ensures buffer[..at + |bytes|] == old(buffer[..at]) + bytes
    ensures buffer[at + |bytes|..] == old(buffer[at + |bytes|..])
  {
    forall i | 0 <= i < |bytes| {
      buffer[at + i] := bytes[i];
    }
  }
}

/** MD5 as RFC 1321 defines it, section 3. */
module Md5Spec {
  import opened BlockHash

  datatype Regs = Regs(a: bv32, b: bv32, c: bv32, d: bv32)

  const IV := Regs(0x67452301, 0xEFCDAB89, 0x98BADCFE, 0x10325476)

  function F(i: nat, x: bv32, y: bv32, z: bv32): bv32 {
    if i < 16 then (x & y) | (!x & z)
    else if i < 32 then (x & z) | (y & !z)
    else if i < 48 then x ^ y ^ z
    else y ^ (x | !z)
  }

  /** Which word of the block step i adds. */
  function K(i: nat): (k: nat)
    ensures k < 16
  {
    if i < 16 then i % 16
    else if i < 32 then (1 + 5 * i) % 16
    else if i < 48 then (5 + 3 * i) % 16
    else 7 * i % 16
  }

  /** How far step i rotates. */
  function S(i: nat): (s: bv32)
    ensures s <= 32
  {
    if i < 16 then (match i % 4 case 0 => 7 case 1 => 12 case 2 => 17 case _ => 22)
    else if i < 32 then (match i % 4 case 0 => 5 case 1 => 9 case 2 => 14 case _ => 20)
    else if i < 48 then (match i % 4 case 0 => 4 case 1 => 11 case 2 => 16 case _ => 23)
    else (match i % 4 case 0 => 6 case 1 => 10 case 2 => 15 case _ => 21)
  }

  function T0(i: nat): bv32 {
    match i / 4
    case 0 => (match i % 4 case 0 => 0xD76AA478 case 1 => 0xE8C7B756 case 2 => 0x242070DB case _ => 0xC1BDCEEE)
    case 1 => (match i % 4 case 0 => 0xF57C0FAF case 1 => 0x4787C62A case 2 => 0xA8304613 case _ => 0xFD469501)
    case 2 => (match i % 4 case 0 => 0x698098D8 case 1 => 0x8B44F7AF case 2 => 0xFFFF5BB1 case _ => 0x895CD7BE)
    case _ => (match i % 4 case 0 => 0x6B901122 case 1 => 0xFD987193 case 2 => 0xA679438E case _ => 0x49B40821)
  }

  function T1(i: nat): bv32 {
    match i / 4
    case 0 => (match i % 4 case 0 => 0xF61E2562 case 1 => 0xC040B340 case 2 => 0x265E5A51 case _ => 0xE9B6C7AA)
    case 1 => (match i % 4 case 0 => 0xD62F105D case 1 => 0x02441453 case 2 => 0xD8A1E681 case _ => 0xE7D3FBC8)
    case 2 => (match i % 4 case 0 => 0x21E1CDE6 case 1 => 0xC33707D6 case 2 => 0xF4D50D87 case _ => 0x455A14ED)
    case _ => (match i % 4 case 0 => 0xA9E3E905 case 1 => 0xFCEFA3F8 case 2 => 0x676F02D9 case _ => 0x8D2A4C8A)
  }

  function T2(i: nat): bv32 {
    match i / 4
    case 0 => (match i % 4 case 0 => 0xFFFA3942 case 1 => 0x8771F681 case 2 => 0x6D9D6122 case _ => 0xFDE5380C)
    case 1 => (match i % 4 case 0 => 0xA4BEEA44 case 1 => 0x4BDECFA9 case 2 => 0xF6BB4B60 case _ => 0xBEBFBC70)
    case 2 => (match i % 4 case 0 => 0x289B7EC6 case 1 => 0xEAA127FA case 2 => 0xD4EF3085 case _ => 0x04881D05)
    case _ => (match i % 4 case 0 => 0xD9D4D039 case 1 => 0xE6DB99E5 case 2 => 0x1FA27CF8 case _ => 0xC4AC5665)
  }

  function T3(i: nat): bv32 {
    match i / 4
    case 0 => (match i % 4 case 0 => 0xF4292244 case 1 => 0x432AFF97 case 2 => 0xAB9423A7 case _ => 0xFC93A039)
    case 1 => (match i % 4 case 0 => 0x655B59C3 case 1 => 0x8F0CCC92 case 2 => 0xFFEFF47D case _ => 0x85845DD1)
    case 2 => (match i % 4 case 0 => 0x6FA87E4F case 1 => 0xFE2CE6E0 case 2 => 0xA3014314 case _ => 0x4E0811A1)
    case _ => (match i % 4 case 0 => 0xF7537E82 case 1 => 0xBD3AF235 case 2 => 0x2AD7D2BB case _ => 0xEB86D391)
  }

  /** T[i + 1] of section 3.4: the integer part of 2^32 times the sine of i + 1. */
  function T(i: nat): bv32
    requires i < 64
  {
    if i < 16 then T0(i) else if i < 32 then T1(i - 16) else if i < 48 then T2(i - 32) else T3(i - 48)
  }

  /** Four bytes at offset i as a word, least significant byte first. */
  function GetUint32LE(b: Block, i: nat): bv32
    requires i + 3 < 64
  {
    (b[i] as bv32) | (b[i + 1] as bv32 << 8) | (b[i + 2] as bv32 << 16) | (b[i + 3] as bv32 << 24)
  }

  function Word(block: Block, k: nat): bv32
    requires k < 16
  {
    GetUint32LE(block, 4 * k)
  }

  function Words(block: Block): (x: seq<bv32>)
    ensures |x| == 16
  {
    seq(16, k requires 0 <= k < 16 => Word(block, k))
  }

  function Sum(a: bv32, f: bv32, x: bv32, t: bv32): bv32 {
    a + f + x + t
  }

  /** Rotates by s and adds b. */
  function Turn(a: bv32, s: bv32, b: bv32): bv32
    requires s <= 32
  {
    Rotl(a, s) + b
  }

  function Step(i: nat, r: Regs, block: Block): Regs
    requires i < 64
  {
    Regs(r.d, Turn(Sum(r.a, F(i, r.b, r.c, r.d), Word(block, K(i)), T(i)), S(i), r.b), r.b, r.c)
  }

  /** The registers after the first i of the 64 steps. */
  ghost function Steps(block: Block, h: Regs, i: nat): Regs
    requires i <= 64
  {
    if i == 0 then h else Step(i - 1, Steps(block, h, i - 1), block)
  }

  function AddRegs(h: Regs, r: Regs): Regs {
    Regs(h.a + r.a, h.b + r.b, h.c + r.c, h.d + r.d)
  }

  ghost function Compress(h: Regs, block: Block): Regs {
    AddRegs(h, Steps(block, h, 64))
  }

  function Pad(m: seq<bv8>): seq<bv8>
  {
    m + [0x80] + Zeros(ZeroCount(|m|)) + Bytes(LittleEndian(8 * |m|, 8))
  }

  function WordBytes(w: bv32): (r: seq<bv8>)
    ensures |r| == 4
  {
    [(w & 0xFF) as bv8, ((w >> 8) & 0xFF) as bv8, ((w >> 16) & 0xFF) as bv8, (w >> 24) as bv8]
  }

  function RegsBytes(r: Regs): (s: seq<bv8>)
    ensures |s| == 16
  {
    WordBytes(r.a) + WordBytes(r.b) + WordBytes(r.c) + WordBytes(r.d)
  }

  ghost function Digest(m: seq<bv8>): (s: seq<bv8>)
    ensures |s| == 16
  {
    RegsBytes(Fold(Compress, IV, Pad(m)))
  }
}

/** The streaming implementation: the same buffering as SHA-1, least significant byte first. */
module Md5 {
  import opened BlockHash
  import opened Hex
  import opened Md5Spec

  // ---- the block function ----

  function FastF(i: nat, x: bv32, y: bv32, z: bv32): bv32 {
    if i < 16 then z ^ (x & (y ^ z))
    else if i < 32 then y ^ (z & (x ^ y))
    else if i < 48 then x ^ y ^ z
    else y ^ (x | !z)
  }

  lemma Choose(x: bv32, y: bv32, z: bv32)
    ensures z ^ (x & (y ^ z)) == (x & y) | (!x & z)
    ensures y ^ (z & (x ^ y)) == (x & z) | (y & !z)
  {}

  lemma FastFIsF(i: nat, x: bv32, y: bv32, z: bv32)
    ensures FastF(i, x, y, z) == F(i, x, y, z)
  {
    Choose(x, y, z);
  }

  method AddTo(a: bv32, f: bv32, x: bv32, t: bv32) returns (a': bv32)
    ensures a' == Sum(a, f, x, t)
  {
    a' := a + (f + x + t);
  }

  method RotateAdd(a: bv32, s: bv32, b: bv32) returns (a': bv32)
    requires s <= 32
    ensures a' == Turn(a, s, b)
  {
    a' := Rotl(a, s) + b;
  }

  method LoadWords(data: Block) returns (x: seq<bv32>)
    ensures x == Words(data)
  {
    x := [GetUint32LE(data, 0), GetUint32LE(data, 4), GetUint32LE(data, 8), GetUint32LE(data, 12),
          GetUint32LE(data, 16), GetUint32LE(data, 20), GetUint32LE(data, 24), GetUint32LE(data, 28),
          GetUint32LE(data, 32), GetUint32LE(data, 36), GetUint32LE(data, 40), GetUint32LE(data, 44),
          GetUint32LE(data, 48), GetUint32LE(data, 52), GetUint32LE(data, 56), GetUint32LE(data, 60)];
  }

  /** Step i adds word k and constant t and rotates by s. */
  predicate Operands(i: nat, k: nat, s: bv32, t: bv32)
    requires i < 64
  {
    k == K(i) && s == S(i) && t == T(i)
  }

  lemma Operands0To7()
    ensures Operands(0, 0, 7, 0xD76AA478)
    ensures Operands(1, 1, 12, 0xE8C7B756)
    ensures Operands(2, 2, 17, 0x242070DB)
    ensures Operands(3, 3, 22, 0xC1BDCEEE)
    ensures Operands(4, 4, 7, 0xF57C0FAF)
    ensures Operands(5, 5, 12, 0x4787C62A)
    ensures Operands(6, 6, 17, 0xA8304613)
    ensures Operands(7, 7, 22, 0xFD469501)
  {}

  lemma Operands8To15()
    ensures Operands(8, 8, 7, 0x698098D8)
    ensures Operands(9, 9, 12, 0x8B44F7AF)
    ensures Operands(10, 10, 17, 0xFFFF5BB1)
    ensures Operands(11, 11, 22, 0x895CD7BE)
    ensures Operands(12, 12, 7, 0x6B901122)
    ensures Operands(13, 13, 12, 0xFD987193)
    ensures Operands(14, 14, 17, 0xA679438E)
    ensures Operands(15, 15, 22, 0x49B40821)
  {}

  lemma Operands16To23()
    ensures Operands(16, 1, 5, 0xF61E2562)
    ensures Operands(17, 6, 9, 0xC040B340)
    ensures Operands(18, 11, 14, 0x265E5A51)
    ensures Operands(19, 0, 20, 0xE9B6C7AA)
    ensures Operands(20, 5, 5, 0xD62F105D)
    ensures Operands(21, 10, 9, 0x02441453)
    ensures Operands(22, 15, 14, 0xD8A1E681)
    ensures Operands(23, 4, 20, 0xE7D3FBC8)
  {}

  lemma Operands24To31()
    ensures Operands(24, 9, 5, 0x21E1CDE6)
    ensures Operands(25, 14, 9, 0xC33707D6)
    ensures Operands(26, 3, 14, 0xF4D50D87)
    ensures Operands(27, 8, 20, 0x455A14ED)
    ensures Operands(28, 13, 5, 0xA9E3E905)
    ensures Operands(29, 2, 9, 0xFCEFA3F8)
    ensures Operands(30, 7, 14, 0x676F02D9)
    ensures Operands(31, 12, 20, 0x8D2A4C8A)
  {}

  lemma Operands32To39()
    ensures Operands(32, 5, 4, 0xFFFA3942)
    ensures Operands(33, 8, 11, 0x8771F681)
    ensures Operands(34, 11, 16, 0x6D9D6122)
    ensures Operands(35, 14, 23, 0xFDE5380C)
    ensures Operands(36, 1, 4, 0xA4BEEA44)
    ensures Operands(37, 4, 11, 0x4BDECFA9)
    ensures Operands(38, 7, 16, 0xF6BB4B60)
    ensures Operands(39, 10, 23, 0xBEBFBC70)
  {}

  lemma Operands40To47()
    ensures Operands(40, 13, 4, 0x289B7EC6)
    ensures Operands(41, 0, 11, 0xEAA127FA)
    ensures Operands(42, 3, 16, 0xD4EF3085)
    ensures Operands(43, 6, 23, 0x04881D05)
    ensures Operands(44, 9, 4, 0xD9D4D039)
    ensures Operands(45, 12, 11, 0xE6DB99E5)
    ensures Operands(46, 15, 16, 0x1FA27CF8)
    ensures Operands(47, 2, 23, 0xC4AC5665)
  {}

  lemma Operands48To55()
    ensures Operands(48, 0, 6, 0xF4292244)
    ensures Operands(49, 7, 10, 0x432AFF97)
    ensures Operands(50, 14, 15, 0xAB9423A7)
    ensures Operands(51, 5, 21, 0xFC93A039)
    ensures Operands(52, 12, 6, 0x655B59C3)
    ensures Operands(53, 3, 10, 0x8F0CCC92)
    ensures Operands(54, 10, 15, 0xFFEFF47D)
    ensures Operands(55, 1, 21, 0x85845DD1)
  {}

  lemma Operands56To63()
    ensures Operands(56, 8, 6, 0x6FA87E4F)
    ensures Operands(57, 15, 10, 0xFE2CE6E0)
    ensures Operands(58, 6, 15, 0xA3014314)
    ensures Operands(59, 13, 21, 0x4E0811A1)
    ensures Operands(60, 4, 6, 0xF7537E82)
    ensures Operands(61, 11, 10, 0xBD3AF235)
    ensures Operands(62, 2, 15, 0x2AD7D2BB)
    ensures Operands(63, 9, 21, 0xEB86D391)
  {}

  /** P: one step, writing the one register that changes; the caller renames the other three. */
  method P(i: nat, a: bv32, b: bv32, c: bv32, d: bv32, x: seq<bv32>, k: nat, s: bv32, t: bv32,
           ghost block: Block, ghost h: Regs)
    returns (a': bv32)
    requires i < 64 && Steps(block, h, i) == Regs(a, b, c, d)
    requires x == Words(block) && Operands(i, k, s, t)
    ensures Steps(block, h, i + 1) == Regs(d, a', b, c)
  {
    FastFIsF(i, b, c, d);
    a' := AddTo(a, FastF(i, b, c, d), x[k], t);
    a' := RotateAdd(a', s, b);
  }

  method Steps0To15(x: seq<bv32>, a: bv32, b: bv32, c: bv32, d: bv32, ghost block: Block, ghost h: Regs)
    returns (A: bv32, B: bv32, C: bv32, D: bv32)
    requires x == Words(block)
    requires Steps(block, h, 0) == Regs(a, b, c, d)
    ensures Steps(block, h, 16) == Regs(A, B, C, D)
  {
    hide *;
    Operands0To7(); Operands8To15();
    A, B, C, D := a, b, c, d;
    A := P(0, A, B, C, D, x, 0, 7, 0xD76AA478, block, h);
    D := P(1, D, A, B, C, x, 1, 12, 0xE8C7B756, block, h);
    C := P(2, C, D, A, B, x, 2, 17, 0x242070DB, block, h);
    B := P(3, B, C, D, A, x, 3, 22, 0xC1BDCEEE, block, h);
    A := P(4, A, B, C, D, x, 4, 7, 0xF57C0FAF, block, h);
    D := P(5, D, A, B, C, x, 5, 12, 0x4787C62A, block, h);
    C := P(6, C, D, A, B, x, 6, 17, 0xA8304613, block, h);
    B := P(7, B, C, D, A, x, 7, 22, 0xFD469501, block, h);
    A := P(8, A, B, C, D, x, 8, 7, 0x698098D8, block, h);
    D := P(9, D, A, B, C, x, 9, 12, 0x8B44F7AF, block, h);
    C := P(10, C, D, A, B, x, 10, 17, 0xFFFF5BB1, block, h);
    B := P(11, B, C, D, A, x, 11, 22, 0x895CD7BE, block, h);
    A := P(12, A, B, C, D, x, 12, 7, 0x6B901122, block, h);
    D := P(13, D, A, B, C, x, 13, 12, 0xFD987193, block, h);
    C := P(14, C, D, A, B, x, 14, 17, 0xA679438E, block, h);
    B := P(15, B, C, D, A, x, 15, 22, 0x49B40821, block, h);
  }

  method Steps16To31(x: seq<bv32>, a: bv32, b: bv32, c: bv32, d: bv32, ghost block: Block, ghost h: Regs)
    returns (A: bv32, B: bv32, C: bv32, D: bv32)
    requires x == Words(block)
    requires Steps(block, h, 16) == Regs(a, b, c, d)
    ensures Steps(block, h, 32) == Regs(A, B, C, D)
  {
    hide *;
    Operands16To23(); Operands24To31();
    A, B, C, D := a, b, c, d;
    A := P(16, A, B, C, D, x, 1, 5, 0xF61E2562, block, h);
    D := P(17, D, A, B, C, x, 6, 9, 0xC040B340, block, h);
    C := P(18, C, D, A, B, x, 11, 14, 0x265E5A51, block, h);
    B := P(19, B, C, D, A, x, 0, 20, 0xE9B6C7AA, block, h);
    A := P(20, A, B, C, D, x, 5, 5, 0xD62F105D, block, h);
    D := P(21, D, A, B, C, x, 10, 9, 0x02441453, block, h);
    C := P(22, C, D, A, B, x, 15, 14, 0xD8A1E681, block, h);
    B := P(23, B, C, D, A, x, 4, 20, 0xE7D3FBC8, block, h);
    A := P(24, A, B, C, D, x, 9, 5, 0x21E1CDE6, block, h);
    D := P(25, D, A, B, C, x, 14, 9, 0xC33707D6, block, h);
    C := P(26, C, D, A, B, x, 3, 14, 0xF4D50D87, block, h);
    B := P(27, B, C, D, A, x, 8, 20, 0x455A14ED, block, h);
    A := P(28, A, B, C, D, x, 13, 5, 0xA9E3E905, block, h);
    D := P(29, D, A, B, C, x, 2, 9, 0xFCEFA3F8, block, h);
    C := P(30, C, D, A, B, x, 7, 14, 0x676F02D9, block, h);
    B := P(31, B, C, D, A, x, 12, 20, 0x8D2A4C8A, block, h);
  }

  method Steps32To47(x: seq<bv32>, a: bv32, b: bv32, c: bv32, d: bv32, ghost block: Block, ghost h: Regs)
    returns (A: bv32, B: bv32, C: bv32, D: bv32)
    requires x == Words(block)
    requires Steps(block, h, 32) == Regs(a, b, c, d)
    ensures Steps(block, h, 48) == Regs(A, B, C, D)
  {
    hide *;
    Operands32To39(); Operands40To47();
    A, B, C, D := a, b, c, d;
    A := P(32, A, B, C, D, x, 5, 4, 0xFFFA3942, block, h);
    D := P(33, D, A, B, C, x, 8, 11, 0x8771F681, block, h);
    C := P(34, C, D, A, B, x, 11, 16, 0x6D9D6122, block, h);
    B := P(35, B, C, D, A, x, 14, 23, 0xFDE5380C, block, h);
    A := P(36, A, B, C, D, x, 1, 4, 0xA4BEEA44, block, h);
    D := P(37, D, A, B, C, x, 4, 11, 0x4BDECFA9, block, h);
    C := P(38, C, D, A, B, x, 7, 16, 0xF6BB4B60, block, h);
    B := P(39, B, C, D, A, x, 10, 23, 0xBEBFBC70, block, h);
    A := P(40, A, B, C, D, x, 13, 4, 0x289B7EC6, block, h);
    D := P(41, D, A, B, C, x, 0, 11, 0xEAA127FA, block, h);
    C := P(42, C, D, A, B, x, 3, 16, 0xD4EF3085, block, h);
    B := P(43, B, C, D, A, x, 6, 23, 0x04881D05, block, h);
    A := P(44, A, B, C, D, x, 9, 4, 0xD9D4D039, block, h);
    D := P(45, D, A, B, C, x, 12, 11, 0xE6DB99E5, block, h);
    C := P(46, C, D, A, B, x, 15, 16, 0x1FA27CF8, block, h);
    B := P(47, B, C, D, A, x, 2, 23, 0xC4AC5665, block, h);
  }

  method Steps48To63(x: seq<bv32>, a: bv32, b: bv32, c: bv32, d: bv32, ghost block: Block, ghost h: Regs)
    returns (A: bv32, B: bv32, C: bv32, D: bv32)
    requires x == Words(block)
    requires Steps(block, h, 48) == Regs(a, b, c, d)
    ensures Steps(block, h, 64) == Regs(A, B, C, D)
  {
    hide *;
    Operands48To55(); Operands56To63();
    A, B, C, D := a, b, c, d;
    A := P(48, A, B, C, D, x, 0, 6, 0xF4292244, block, h);
    D := P(49, D, A, B, C, x, 7, 10, 0x432AFF97, block, h);
    C := P(50, C, D, A, B, x, 14, 15, 0xAB9423A7, block, h);
    B := P(51, B, C, D, A, x, 5, 21, 0xFC93A039, block, h);
    A := P(52, A, B, C, D, x, 12, 6, 0x655B59C3, block, h);
    D := P(53, D, A, B, C, x, 3, 10, 0x8F0CCC92, block, h);
    C := P(54, C, D, A, B, x, 10, 15, 0xFFEFF47D, block, h);
    B := P(55, B, C, D, A, x, 1, 21, 0x85845DD1, block, h);
    A := P(56, A, B, C, D, x, 8, 6, 0x6FA87E4F, block, h);
    D := P(57, D, A, B, C, x, 15, 10, 0xFE2CE6E0, block, h);
    C := P(58, C, D, A, B, x, 6, 15, 0xA3014314, block, h);
    B := P(59, B, C, D, A, x, 13, 21, 0x4E0811A1, block, h);
    A := P(60, A, B, C, D, x, 4, 6, 0xF7537E82, block, h);
    D := P(61, D, A, B, C, x, 11, 10, 0xBD3AF235, block, h);
    C := P(62, C, D, A, B, x, 2, 15, 0x2AD7D2BB, block, h);
    B := P(63, B, C, D, A, x, 9, 21, 0xEB86D391, block, h);
  }

  // ---- the context ----

  /** The text whose blocks Finish ends up compressing: the two-word byte count it encodes
      misses 2^32 bytes for each of the `lost` carries. */
  function FinishedText(m: seq<bv8>, lost: int): seq<bv8> {
    m + [0x80] + Zeros(ZeroCount(|m|)) + Bytes(LittleEndian(BitCount(|m|, lost), 8))
  }

  lemma TextJoin(m: seq<bv8>, lost: int)
    ensures m + ([0x80] + Zeros(ZeroCount(|m|))) + Bytes(LittleEndian(BitCount(|m|, lost), 8)) == FinishedText(m, lost)
  {}

  function PutUint32(n: uint32): (r: seq<bv8>)
    ensures |r| == 4
  {
    Bytes([n % 256, n / 0x100 % 256, n / 0x1_0000 % 256, n / 0x100_0000])
  }

  lemma LengthField(total0: uint32, total1: uint32, n: nat, lost: int)
    requires Counted(total0, total1, n, lost)
    ensures PutUint32(LowWord(total0)) + PutUint32(HighWord(total0, total1)) == Bytes(LittleEndian(BitCount(n, lost), 8))
  {
    BitCountSplits(total0, total1, n, lost);
    LittleEndian4(HighWord(total0, total1));
    LittleEndian4(LowWord(total0));
    Pow256Of4();
    BytesJoin(LittleEndian(LowWord(total0), 4), LittleEndian(HighWord(total0, total1), 4));
    LittleEndianJoin(HighWord(total0, total1), LowWord(total0), 4, 4);
  }

  class Context {
    var total0: uint32
    var total1: uint32
    var state: Regs
    const buffer: array<bv8>
    var md5sum: seq<char>

    // everything absorbed since Reset, and the number of multiples of 2^32 in the chunk
    // lengths, which the narrowing of each length to 32 bits drops from the total
    ghost var message: seq<bv8>
    ghost var lost: nat

    ghost predicate Valid()
      reads this, buffer
    {
      && buffer.Length == 64
      && Counted(total0, total1, |message|, lost)
      && state == Fold(Compress, IV, message)
      && buffer[..|message| % 64] == Tail(message)
    }

    constructor ()
      ensures buffer.Length == 64 && fresh(buffer)
    {
      buffer := new bv8[64](_ => 0);
      md5sum := [];
      total0, total1, state := 0, 0, Regs(0, 0, 0, 0);
      message, lost := [], 0;
    }

    method Reset()
      requires buffer.Length == 64
      modifies this
      ensures Valid() && message == [] && lost == 0
    {
      total0, total1 := 0, 0;
      state := Regs(0x67452301, 0xEFCDAB89, 0x98BADCFE, 0x10325476);
      md5sum := seq(33, _ => '\0');
      message, lost := [], 0;
    }

    /** Absorbs one block into the state. */
    method Process(data: Block)
      modifies this`state
      ensures state == Compress(old(state), data)
    {
      ghost var h := state;
      var x := LoadWords(data);
      var A, B, C, D := Steps0To15(x, state.a, state.b, state.c, state.d, data, h);
      A, B, C, D := Steps16To31(x, A, B, C, D, data, h);
      A, B, C, D := Steps32To47(x, A, B, C, D, data, h);
      A, B, C, D := Steps48To63(x, A, B, C, D, data, h);
      state := AddRegs(state, Regs(A, B, C, D));
    }

    /** Counts the bytes of a chunk, whose length is narrowed to 32 bits first. */
    method AddToTotal(len: nat)
      requires Counted(total0, total1, |message|, lost)
      modifies this`total0, this`total1
      ensures Counted(total0, total1, |message| + len, lost + len / TWO_32)
    {
      CountSplits(|message|, len, lost);
      total0 := (total0 + len % TWO_32) % TWO_32;
      if total0 < len % TWO_32 {
        total1 := (total1 + 1) % TWO_32;
      }
    }

    /** Compresses whole blocks straight from the input. */
    method TakeBlocks(input: seq<bv8>, from: nat) returns (pos: nat)
      requires from <= |input| && state == Fold(Compress, IV, message + input[..from])
      requires |input| - from >= 64 ==> Tail(message + input[..from]) == []
      modifies this`state
      ensures from <= pos <= |input| < pos + 64
      ensures state == Fold(Compress, IV, message + input[..pos])
      ensures Tail(message + input[..pos]) == Tail(message + input[..from])
    {
      hide Compress;
      pos := from;
      while |input| - pos >= 64
        invariant from <= pos <= |input|
        invariant state == Fold(Compress, IV, message + input[..pos])
        invariant Tail(message + input[..pos]) == Tail(message + input[..from])
        invariant |input| - pos >= 64 ==> Tail(message + input[..pos]) == []
      {
        TakeBlock(Compress, IV, message, input, pos);
        Process(input[pos..pos + 64]);
        pos := pos + 64;
      }
    }

    /** The data path of Update: completes a waiting block, then takes blocks straight from the
        input, then leaves the rest waiting. */
    method AbsorbBytes(input: seq<bv8>, left0: nat)
      requires buffer.Length == 64 && state == Fold(Compress, IV, message)
      requires left0 == |Tail(message)| && buffer[..left0] == Tail(message)
      modifies this`state, buffer
      ensures state == Fold(Compress, IV, message + input)
      ensures buffer[..|message + input| % 64] == Tail(message + input)
    {
      hide Compress;
      var left, pos := left0, 0;
      var fill := 64 - left;
      assert message + input[..0] == message;
      if left > 0 && |input| >= fill {
        CopyInto(buffer, left, input[..fill]);
        TakeFill(Compress, IV, message, input[..fill], buffer[..]);
        Process(buffer[..]);
        pos := fill;
        left := 0;
      }
      pos := TakeBlocks(input, pos);
      LeaveRest(Compress, IV, message, input, pos);
      if |input| - pos > 0 {
        CopyInto(buffer, left, input[pos..]);
      }
    }

    /** Absorbs a chunk of any length. */
    method Update(input: seq<bv8>)
      requires Valid()
      modifies this, buffer
      ensures Valid()
      ensures message == old(message) + input
      ensures lost == old(lost) + |input| / TWO_32
    {
      hide Compress;
      if |input| == 0 {
        assert old(message) + input == old(message);
        return;
      }
      var left := total0 % 64;
      LowBits(total0, total1, |message|, lost);
      AddToTotal(|input|);
      AbsorbBytes(input, left);
      message := message + input;
      lost := lost + |input| / TWO_32;
      assert |message| == |old(message)| + |input|;
    }

    /** Pads, encodes the length and stores the digest in hex; the padding counts as absorbed too. */
    method Finish()
      requires Valid()
      modifies this, buffer
      ensures Valid() && message == FinishedText(old(message), old(lost))
      ensures md5sum == HexOf(RegsBytes(Fold(Compress, IV, message))) + ['\0']
    {
      var high, low := HighWord(total0, total1), LowWord(total0);
      var msglen := PutUint32(low) + PutUint32(high);
      LengthField(total0, total1, |message|, lost);

      var last := total0 % 64;
      LowBits(total0, total1, |message|, lost);
      PaddingPrefix(|message|);
      var padn := PadLength(last);

      Update(([0x80] + Zeros(63))[..padn]);
      Update(msglen);
      TextJoin(old(message), old(lost));
      var hex := ToHex(RegsBytes(state));
      md5sum := hex + ['\0'];
    }

    /** Whether the stored digest is the announced one, whose letters may be in either case. */
    method Compare(announced: seq<char>) returns (differs: bool)
      requires |md5sum| == 33 && |announced| >= 32
      ensures '\0' !in md5sum[..32] ==> (differs <==> md5sum[..32] != Lower(announced)[..32])
      ensures differs <==> Text(md5sum, 32) != Text(Lower(announced), 32)
    {
      var lower := Lower(announced);
      EqualUpToIsSameText(md5sum, lower, 32);
      if '\0' !in md5sum[..32] { EqualUpToIsEqual(md5sum, lower, 32); }
      differs := !EqualUpTo(md5sum, lower, 32);
    }
  }

  /** The finished text is the padding RFC 1321 asks for exactly when the carries lost are a multiple of 2^29;
      otherwise the length field it ends with is wrong. */
  lemma FinishedTextExact(m: seq<bv8>, lost: nat)
    requires TWO_32 * lost <= |m|
    ensures LittleEndian(BitCount(|m|, lost), 8) == LittleEndian(8 * |m|, 8) <==> lost % TWO_29 == 0
    ensures lost % TWO_29 == 0 ==> FinishedText(m, lost) == Pad(m)
    ensures lost % TWO_29 == 0 ==> RegsBytes(Fold(Compress, IV, FinishedText(m, lost))) == Digest(m)
  {
    hide Compress, RegsBytes, LittleEndian, Zeros, Bytes;
    BitCountExactMod(|m|, lost);
    Pow256Of8();
    LittleEndianMod(8 * |m|, 8);
    if LittleEndian(BitCount(|m|, lost), 8) == LittleEndian(8 * |m| % TWO_64, 8) {
      LittleEndianInjective(BitCount(|m|, lost), 8 * |m| % TWO_64, 8);
    }
  }

  lemma ChunksExact(chunks: seq<seq<bv8>>)
    ensures (forall c :: c in chunks ==> |c| < TWO_32) || Carries(chunks) % TWO_29 == 0 ==>
              RegsBytes(Fold(Compress, IV, FinishedText(Concat(chunks), Carries(chunks)))) == Digest(Concat(chunks))
  {
    hide Compress, RegsBytes, Digest, FinishedText, Carries, Concat, BitCount, LittleEndian, Pad;
    CarriesBound(chunks);
    FinishedTextExact(Concat(chunks), Carries(chunks));
    if forall c :: c in chunks ==> |c| < TWO_32 {
      assert Carries(chunks) == 0;
    }
  }

  /** The digest text of a message absorbed as the given chunks, in order. */
  method DigestOfChunks(chunks: seq<seq<bv8>>) returns (md5sum: seq<char>)
    ensures (forall c :: c in chunks ==> |c| < TWO_32) || Carries(chunks) % TWO_29 == 0 ==>
              md5sum == HexOf(Digest(Concat(chunks))) + ['\0']
    ensures md5sum == HexOf(RegsBytes(Fold(Compress, IV, FinishedText(Concat(chunks), Carries(chunks))))) + ['\0']
  {
    hide Compress, RegsBytes, Digest;
    var ctx := new Context();
    ctx.Reset();
    for i := 0 to |chunks|
      invariant ctx.Valid() && fresh(ctx) && fresh(ctx.buffer)
      invariant ctx.message == Concat(chunks[..i]) && ctx.lost == Carries(chunks[..i])
    {
      ctx.Update(chunks[i]);
      assert chunks[..i + 1] == chunks[..i] + [chunks[i]];
    }
    assert chunks[..|chunks|] == chunks;
    ChunksExact(chunks);
    hide FinishedText, Carries;
    ctx.Finish();
    md5sum := ctx.md5sum;
  }
}

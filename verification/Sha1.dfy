/** SHA-1 as RFC 3174 defines it: section 4 (padding), 5 (functions and constants) and 6.1
    (80-word schedule, five registers). */
module Sha1Spec {
  import opened BlockHash

  datatype Regs = Regs(a: bv32, b: bv32, c: bv32, d: bv32, e: bv32)

  const IV := Regs(0x67452301, 0xEFCDAB89, 0x98BADCFE, 0x10325476, 0xC3D2E1F0)

  function F(t: nat, b: bv32, c: bv32, d: bv32): bv32 {
    if t < 20 then (b & c) | (!b & d)
    else if t < 40 then b ^ c ^ d
    else if t < 60 then (b & c) | (b & d) | (c & d)
    else b ^ c ^ d
  }

  function K(t: nat): bv32 {
    if t < 20 then 0x5A827999
    else if t < 40 then 0x6ED9EBA1
    else if t < 60 then 0x8F1BBCDC
    else 0xCA62C1D6
  }

  /** Four bytes at offset i as a word, most significant byte first. */
  function GetUint32BE(b: Block, i: nat): bv32
    requires i + 3 < 64
  {
    (b[i] as bv32 << 24) | (b[i + 1] as bv32 << 16) | (b[i + 2] as bv32 << 8) | (b[i + 3] as bv32)
  }

  function Word(block: Block, t: nat): bv32
    requires t < 16
  {
    GetUint32BE(block, 4 * t)
  }

  function Mix(a: bv32, b: bv32, c: bv32, d: bv32): bv32 {
    Rotl(a ^ b ^ c ^ d, 1)
  }

  ghost function Schedule(block: Block, t: nat): bv32 {
    if t < 16 then Word(block, t)
    else Mix(Schedule(block, t - 3), Schedule(block, t - 8), Schedule(block, t - 14), Schedule(block, t - 16))
  }

  function Sum(s: bv32, f: bv32, e: bv32, w: bv32, k: bv32): bv32 {
    s + f + e + w + k
  }

  function Round(t: nat, r: Regs, w: bv32): Regs {
    Regs(Sum(Rotl(r.a, 5), F(t, r.b, r.c, r.d), r.e, w, K(t)), r.a, Rotl(r.b, 30), r.c, r.d)
  }

  /** The registers after the first t rounds. */
  ghost function Rounds(block: Block, h: Regs, t: nat): Regs {
    if t == 0 then h else Round(t - 1, Rounds(block, h, t - 1), Schedule(block, t - 1))
  }

  function AddRegs(h: Regs, r: Regs): Regs {
    Regs(h.a + r.a, h.b + r.b, h.c + r.c, h.d + r.d, h.e + r.e)
  }

  ghost function Compress(h: Regs, block: Block): Regs {
    AddRegs(h, Rounds(block, h, 80))
  }

  function Pad(m: seq<bv8>): seq<bv8>
    requires |m| < TWO_61
  {
    m + [0x80] + Zeros(ZeroCount(|m|)) + Bytes(BigEndian(8 * |m|, 8))
  }

  function WordBytes(w: bv32): (r: seq<bv8>)
    ensures |r| == 4
  {
    [(w >> 24) as bv8, ((w >> 16) & 0xFF) as bv8, ((w >> 8) & 0xFF) as bv8, (w & 0xFF) as bv8]
  }

  function RegsBytes(r: Regs): (s: seq<bv8>)
    ensures |s| == 20
  {
    WordBytes(r.a) + WordBytes(r.b) + WordBytes(r.c) + WordBytes(r.d) + WordBytes(r.e)
  }

  ghost function Digest(m: seq<bv8>): (s: seq<bv8>)
    requires |m| < TWO_61
    ensures |s| == 20
  {
    RegsBytes(Fold(Compress, IV, Pad(m)))
  }
}

/** The streaming implementation: a context updated in place, an unrolled block function with a
    16-word schedule overwritten cyclically, and registers rotated by renaming. */
module Sha1 {
  import opened Common
  import opened BlockHash
  import opened Sha1Spec

  // ---- the block function ----

  /** The source's boolean functions, which need fewer operations than the defining ones. */
  function FastF(t: nat, x: bv32, y: bv32, z: bv32): bv32 {
    if t < 20 then z ^ (x & (y ^ z))
    else if t < 40 then x ^ y ^ z
    else if t < 60 then (x & y) | (z & (x | y))
    else x ^ y ^ z
  }

  lemma Choose(x: bv32, y: bv32, z: bv32)
    ensures z ^ (x & (y ^ z)) == (x & y) | (!x & z)
  {}

  lemma Majority(x: bv32, y: bv32, z: bv32)
    ensures (x & y) | (z & (x | y)) == (x & y) | (x & z) | (y & z)
  {}

  lemma FastFIsF(t: nat, x: bv32, y: bv32, z: bv32)
    ensures FastF(t, x, y, z) == F(t, x, y, z)
  {
    Choose(x, y, z);
    Majority(x, y, z);
  }

  method AddTo(e: bv32, s: bv32, f: bv32, k: bv32, x: bv32) returns (e': bv32)
    ensures e' == Sum(s, f, e, x, k)
  {
    e' := e + (s + f + k + x);
  }

  /** The contents of W before round t: word i of the schedule at i % 16, for the latest 16. */
  ghost function Ring(block: Block, t: nat): (w: seq<bv32>)
    requires t >= 16
    ensures |w| == 16
  {
    if t == 16 then seq(16, i requires 0 <= i < 16 => Word(block, i))
    else var p := t - 1; Ring(block, p)[p % 16 := Schedule(block, p)]
  }

  lemma {:induction false} RingHolds(block: Block, t: nat, i: nat)
    requires 16 <= t && t - 16 <= i < t
    ensures Ring(block, t)[i % 16] == Schedule(block, i)
  {
    if t > 16 && i < t - 1 {
      assert i % 16 != (t - 1) % 16;
      RingHolds(block, t - 1, i);
    }
  }

  lemma SameSlot(t: nat)
    requires t >= 16
    ensures (t - 16) % 16 == t % 16
  {}

  /** The array holds the latest sixteen words before round t. */
  ghost predicate Rolling(w: array<bv32>, block: Block, t: nat)
    reads w
  {
    t >= 16 && w[..] == Ring(block, t)
  }

  /** At the start it holds the first sixteen. */
  lemma FirstWords(w: array<bv32>, block: Block)
    requires Rolling(w, block, 16)
    ensures w.Length == 16 && forall i :: 0 <= i < 16 ==> w[i] == Schedule(block, i)
  {
    forall i | 0 <= i < 16 ensures w[..][i] == Schedule(block, i) {
      RingHolds(block, 16, i);
    }
  }

  method LoadWords(data: Block, w: array<bv32>)
    requires w.Length == 16
    modifies w
    ensures Rolling(w, data, 16)
  {
    for i := 0 to 16
      invariant forall j :: 0 <= j < i ==> w[j] == Word(data, j)
    {
      w[i] := GetUint32BE(data, 4 * i);
    }
  }

  method XorRotate(a: bv32, b: bv32, c: bv32, d: bv32) returns (x: bv32)
    ensures x == Mix(a, b, c, d)
  {
    var temp := a ^ b ^ c ^ d;
    x := (temp << 1) | (temp >> 31);
  }

  /** R(t): computes schedule word t, storing it over word t - 16. */
  method R(w: array<bv32>, t: nat, ghost block: Block) returns (x: bv32)
    requires t >= 16 && Rolling(w, block, t)
    modifies w
    ensures Rolling(w, block, t + 1)
    ensures x == Schedule(block, t)
  {
    ghost var ring := w[..];
    assert ring[(t - 3) % 16] == Schedule(block, t - 3) by { RingHolds(block, t, t - 3); }
    assert ring[(t - 8) % 16] == Schedule(block, t - 8) by { RingHolds(block, t, t - 8); }
    assert ring[(t - 14) % 16] == Schedule(block, t - 14) by { RingHolds(block, t, t - 14); }
    assert ring[t % 16] == Schedule(block, t - 16) by { RingHolds(block, t, t - 16); SameSlot(t); }
    x := XorRotate(w[(t - 3) % 16], w[(t - 8) % 16], w[(t - 14) % 16], w[t % 16]);
    w[t % 16] := x;
    assert w[..] == ring[t % 16 := x];
  }

  /** P: one round, writing the two registers that change; the caller renames the other three. */
  method P(t: nat, a: bv32, b: bv32, c: bv32, d: bv32, e: bv32, x: bv32, ghost block: Block, ghost h: Regs)
    returns (e': bv32, b': bv32)
    requires Rounds(block, h, t) == Regs(a, b, c, d, e)
    requires x == Schedule(block, t)
    ensures Rounds(block, h, t + 1) == Regs(e', a, b', c, d)
  {
    FastFIsF(t, b, c, d);
    e' := AddTo(e, (a << 5) | (a >> 27), FastF(t, b, c, d), K(t), x);
    b' := (b << 30) | (b >> 2);
  }

  method Rounds0To19(w: array<bv32>, a: bv32, b: bv32, c: bv32, d: bv32, e: bv32, ghost block: Block, ghost h: Regs)
    returns (A: bv32, B: bv32, C: bv32, D: bv32, E: bv32)
    requires Rolling(w, block, 16)
    requires Rounds(block, h, 0) == Regs(a, b, c, d, e)
    modifies w
    ensures Rolling(w, block, 20)
    ensures Rounds(block, h, 20) == Regs(A, B, C, D, E)
  {
    hide Rounds, Rolling, Schedule;
    A, B, C, D, E := a, b, c, d, e;
    FirstWords(w, block);
    E, B := P(0, A, B, C, D, E, w[0], block, h);
    D, A := P(1, E, A, B, C, D, w[1], block, h);
    C, E := P(2, D, E, A, B, C, w[2], block, h);
    B, D := P(3, C, D, E, A, B, w[3], block, h);
    A, C := P(4, B, C, D, E, A, w[4], block, h);
    E, B := P(5, A, B, C, D, E, w[5], block, h);
    D, A := P(6, E, A, B, C, D, w[6], block, h);
    C, E := P(7, D, E, A, B, C, w[7], block, h);
    B, D := P(8, C, D, E, A, B, w[8], block, h);
    A, C := P(9, B, C, D, E, A, w[9], block, h);
    E, B := P(10, A, B, C, D, E, w[10], block, h);
    D, A := P(11, E, A, B, C, D, w[11], block, h);
    C, E := P(12, D, E, A, B, C, w[12], block, h);
    B, D := P(13, C, D, E, A, B, w[13], block, h);
    A, C := P(14, B, C, D, E, A, w[14], block, h);
    E, B := P(15, A, B, C, D, E, w[15], block, h);
    var x := R(w, 16, block);
    D, A := P(16, E, A, B, C, D, x, block, h);
    x := R(w, 17, block);
    C, E := P(17, D, E, A, B, C, x, block, h);
    x := R(w, 18, block);
    B, D := P(18, C, D, E, A, B, x, block, h);
    x := R(w, 19, block);
    A, C := P(19, B, C, D, E, A, x, block, h);
  }

  /** Five rounds from round t on, after which every register has its own name again. */
  method FiveRounds(w: array<bv32>, t: nat, a: bv32, b: bv32, c: bv32, d: bv32, e: bv32,
                    ghost block: Block, ghost h: Regs)
    returns (A: bv32, B: bv32, C: bv32, D: bv32, E: bv32)
    requires Rolling(w, block, t)
    requires Rounds(block, h, t) == Regs(a, b, c, d, e)
    modifies w
    ensures Rolling(w, block, t + 5)
    ensures Rounds(block, h, t + 5) == Regs(A, B, C, D, E)
  {
    hide Rounds, Schedule, Ring;
    A, B, C, D, E := a, b, c, d, e;
    var x := R(w, t, block);
    E, B := P(t, A, B, C, D, E, x, block, h);
    x := R(w, t + 1, block);
    D, A := P(t + 1, E, A, B, C, D, x, block, h);
    x := R(w, t + 2, block);
    C, E := P(t + 2, D, E, A, B, C, x, block, h);
    x := R(w, t + 3, block);
    B, D := P(t + 3, C, D, E, A, B, x, block, h);
    x := R(w, t + 4, block);
    A, C := P(t + 4, B, C, D, E, A, x, block, h);
  }

  method Rounds20To79(w: array<bv32>, a: bv32, b: bv32, c: bv32, d: bv32, e: bv32, ghost block: Block, ghost h: Regs)
    returns (A: bv32, B: bv32, C: bv32, D: bv32, E: bv32)
    requires Rolling(w, block, 20)
    requires Rounds(block, h, 20) == Regs(a, b, c, d, e)
    modifies w
    ensures Rolling(w, block, 80)
    ensures Rounds(block, h, 80) == Regs(A, B, C, D, E)
  {
    hide Rounds, Rolling;
    A, B, C, D, E := FiveRounds(w, 20, a, b, c, d, e, block, h);
    A, B, C, D, E := FiveRounds(w, 25, A, B, C, D, E, block, h);
    A, B, C, D, E := FiveRounds(w, 30, A, B, C, D, E, block, h);
    A, B, C, D, E := FiveRounds(w, 35, A, B, C, D, E, block, h);
    A, B, C, D, E := FiveRounds(w, 40, A, B, C, D, E, block, h);
    A, B, C, D, E := FiveRounds(w, 45, A, B, C, D, E, block, h);
    A, B, C, D, E := FiveRounds(w, 50, A, B, C, D, E, block, h);
    A, B, C, D, E := FiveRounds(w, 55, A, B, C, D, E, block, h);
    A, B, C, D, E := FiveRounds(w, 60, A, B, C, D, E, block, h);
    A, B, C, D, E := FiveRounds(w, 65, A, B, C, D, E, block, h);
    A, B, C, D, E := FiveRounds(w, 70, A, B, C, D, E, block, h);
    A, B, C, D, E := FiveRounds(w, 75, A, B, C, D, E, block, h);
  }

  // ---- the context ----

  /** The text whose blocks Finish ends up compressing: the two-word byte count it encodes
      misses 2^32 bytes for each of the `lost` carries. */
  function FinishedText(m: seq<bv8>, lost: int): seq<bv8> {
    m + [0x80] + Zeros(ZeroCount(|m|)) + Bytes(BigEndian(BitCount(|m|, lost), 8))
  }

  lemma TextJoin(m: seq<bv8>, lost: int)
    ensures m + ([0x80] + Zeros(ZeroCount(|m|))) + Bytes(BigEndian(BitCount(|m|, lost), 8)) == FinishedText(m, lost)
  {}

  function PutUint32(n: uint32): (r: seq<bv8>)
    ensures |r| == 4
  {
    Bytes([n / 0x100_0000, n / 0x1_0000 % 256, n / 0x100 % 256, n % 256])
  }

  lemma LengthField(total0: uint32, total1: uint32, n: nat, lost: int)
    requires Counted(total0, total1, n, lost)
    ensures PutUint32(HighWord(total0, total1)) + PutUint32(LowWord(total0)) == Bytes(BigEndian(BitCount(n, lost), 8))
  {
    BitCountSplits(total0, total1, n, lost);
    BigEndian4(HighWord(total0, total1));
    BigEndian4(LowWord(total0));
    Pow256Of4();
    BytesJoin(BigEndian(HighWord(total0, total1), 4), BigEndian(LowWord(total0), 4));
    BigEndianJoin(HighWord(total0, total1), LowWord(total0), 4, 4);
  }

  lemma FivePatches(s: seq<bv8>, a: seq<bv8>, b: seq<bv8>, c: seq<bv8>, d: seq<bv8>, e: seq<bv8>)
    requires |s| >= 20 && |a| == |b| == |c| == |d| == |e| == 4
    ensures Put(Put(Put(Put(Put(s, 0, a), 4, b), 8, c), 12, d), 16, e) == a + b + c + d + e + s[20..]
  {
    assert Put(s, 0, a) == a + s[4..];
    assert Put(a + s[4..], 4, b) == a + b + s[8..];
    assert Put(a + b + s[8..], 8, c) == a + b + c + s[12..];
    assert Put(a + b + c + s[12..], 12, d) == a + b + c + d + s[16..];
    assert Put(a + b + c + d + s[16..], 16, e) == a + b + c + d + e + s[20..];
  }

  method PutUint32BE(n: bv32, b: array<bv8>, i: nat)
    requires i + 4 <= b.Length
    modifies b
    ensures b[..] == Put(old(b[..]), i, WordBytes(n))
  {
    b[i] := (n >> 24) as bv8;
    b[i + 1] := ((n >> 16) & 0xFF) as bv8;
    b[i + 2] := ((n >> 8) & 0xFF) as bv8;
    b[i + 3] := (n & 0xFF) as bv8;
  }

  class Context {
    var total0: uint32
    var total1: uint32
    var state: Regs
    const buffer: array<bv8>

    // everything absorbed since Starts, and the number of multiples of 2^32 in the chunk
    // lengths, which the narrowing of each length to 32 bits drops from the total
    ghost var message: seq<bv8>
    ghost var lost: nat

    ghost predicate Valid()
      reads this, buffer
    {
      && buffer.Length == 64
      && Counted(total0, total1, |message|, lost)
      && state == Fold(Compress, IV, message)
      && buffer[..|message| % 64] == Tail(message)
    }

    constructor ()
      ensures buffer.Length == 64 && fresh(buffer)
    {
      buffer := new bv8[64](_ => 0);
      total0, total1, state := 0, 0, Regs(0, 0, 0, 0, 0);
      message, lost := [], 0;
    }

    method Starts()
      requires buffer.Length == 64
      modifies this
      ensures Valid() && message == [] && lost == 0
    {
      total0, total1 := 0, 0;
      state := Regs(0x67452301, 0xEFCDAB89, 0x98BADCFE, 0x10325476, 0xC3D2E1F0);
      message, lost := [], 0;
    }

    /** Absorbs one block into the state. */
    method Process(data: Block)
      modifies this`state
      ensures state == Compress(old(state), data)
    {
      ghost var h := state;
      var w := new bv32[16];
      LoadWords(data, w);
      var A, B, C, D, E := Rounds0To19(w, state.a, state.b, state.c, state.d, state.e, data, h);
      A, B, C, D, E := Rounds20To79(w, A, B, C, D, E, data, h);
      state := AddRegs(state, Regs(A, B, C, D, E));
    }

    /** Counts the bytes of a chunk, whose length is narrowed to 32 bits first. */
    method AddToTotal(len: nat)
      requires Counted(total0, total1, |message|, lost)
      modifies this`total0, this`total1
      ensures Counted(total0, total1, |message| + len, lost + len / TWO_32)
    {
      CountSplits(|message|, len, lost);
      total0 := (total0 + len % TWO_32) % TWO_32;
      if total0 < len % TWO_32 {
        total1 := (total1 + 1) % TWO_32;
      }
    }

    /** Compresses whole blocks straight from the input. */
    method TakeBlocks(input: seq<bv8>, from: nat) returns (pos: nat)
      requires from <= |input| && state == Fold(Compress, IV, message + input[..from])
      requires |input| - from >= 64 ==> Tail(message + input[..from]) == []
      modifies this`state
      ensures from <= pos <= |input| < pos + 64
      ensures state == Fold(Compress, IV, message + input[..pos])
      ensures Tail(message + input[..pos]) == Tail(message + input[..from])
    {
      hide Compress;
      pos := from;
      while |input| - pos >= 64
        invariant from <= pos <= |input|
        invariant state == Fold(Compress, IV, message + input[..pos])
        invariant Tail(message + input[..pos]) == Tail(message + input[..from])
        invariant |input| - pos >= 64 ==> Tail(message + input[..pos]) == []
      {
        TakeBlock(Compress, IV, message, input, pos);
        Process(input[pos..pos + 64]);
        pos := pos + 64;
      }
    }

    /** The data path of Update: completes a waiting block, then takes blocks straight from the
        input, then leaves the rest waiting. */
    method AbsorbBytes(input: seq<bv8>, left0: nat)
      requires buffer.Length == 64 && state == Fold(Compress, IV, message)
      requires left0 == |Tail(message)| && buffer[..left0] == Tail(message)
      modifies this`state, buffer
      ensures state == Fold(Compress, IV, message + input)
      ensures buffer[..|message + input| % 64] == Tail(message + input)
    {
      hide Compress;
      var left, pos := left0, 0;
      var fill := 64 - left;
      assert message + input[..0] == message;
      if left > 0 && |input| >= fill {
        CopyInto(buffer, left, input[..fill]);
        TakeFill(Compress, IV, message, input[..fill], buffer[..]);
        Process(buffer[..]);
        pos := fill;
        left := 0;
      }
      pos := TakeBlocks(input, pos);
      LeaveRest(Compress, IV, message, input, pos);
      if |input| - pos > 0 {
        CopyInto(buffer, left, input[pos..]);
      }
    }

    /** Absorbs a chunk of any length. */
    method Update(input: seq<bv8>)
      requires Valid()
      modifies this, buffer
      ensures Valid()
      ensures message == old(message) + input
      ensures lost == old(lost) + |input| / TWO_32
    {
      hide Compress;
      if |input| == 0 {
        assert old(message) + input == old(message);
        return;
      }
      var left := total0 % 64;
      LowBits(total0, total1, |message|, lost);
      AddToTotal(|input|);
      AbsorbBytes(input, left);
      message := message + input;
      lost := lost + |input| / TWO_32;
      assert |message| == |old(message)| + |input|;
    }

    method StoreDigest(output: array<bv8>)
      requires output.Length >= 20
      modifies output
      ensures output[..] == RegsBytes(state) + old(output[20..])
    {
      PutUint32BE(state.a, output, 0);
      PutUint32BE(state.b, output, 4);
      PutUint32BE(state.c, output, 8);
      PutUint32BE(state.d, output, 12);
      PutUint32BE(state.e, output, 16);
      FivePatches(old(output[..]), WordBytes(state.a), WordBytes(state.b), WordBytes(state.c), WordBytes(state.d),
                  WordBytes(state.e));
    }

    /** Pads, encodes the length and stores the digest; the padding counts as absorbed too. */
    method Finish(output: array<bv8>)
      requires Valid() && output.Length >= 20 && output != buffer
      modifies this, buffer, output
      ensures Valid() && message == FinishedText(old(message), old(lost))
      ensures output[..] == RegsBytes(Fold(Compress, IV, message)) + old(output[20..])
    {
      var high, low := HighWord(total0, total1), LowWord(total0);
      var msglen := PutUint32(high) + PutUint32(low);
      LengthField(total0, total1, |message|, lost);

      var last := total0 % 64;
      LowBits(total0, total1, |message|, lost);
      PaddingPrefix(|message|);
      var padn := PadLength(last);

      Update(([0x80] + Zeros(63))[..padn]);
      Update(msglen);
      TextJoin(old(message), old(lost));
      StoreDigest(output);
    }
  }

  /** The finished text is the padding RFC 3174 asks for exactly when no chunk lost a carry:
      otherwise the length field it ends with is wrong. */
  lemma FinishedTextExact(m: seq<bv8>, lost: nat)
    requires |m| < TWO_61 && TWO_32 * lost <= |m|
    ensures lost == 0 ==> FinishedText(m, lost) == Pad(m)
    ensures lost == 0 ==> RegsBytes(Fold(Compress, IV, FinishedText(m, lost))) == Digest(m)
    ensures BigEndian(BitCount(|m|, lost), 8) == BigEndian(8 * |m|, 8) <==> lost == 0
  {
    hide Compress, RegsBytes;
    BitCountExact(|m|, lost);
    Pow256Of8();
    if BigEndian(BitCount(|m|, lost), 8) == BigEndian(8 * |m|, 8) {
      BigEndianInjective(BitCount(|m|, lost), 8 * |m|, 8);
    }
  }

  /** The digest of a message absorbed as the given chunks, in order. */
  method DigestOfChunks(chunks: seq<seq<bv8>>, output: array<bv8>)
    requires |Concat(chunks)| < TWO_61 && output.Length >= 20
    modifies output
    ensures (forall c :: c in chunks ==> |c| < TWO_32) ==>
              output[..] == Digest(Concat(chunks)) + old(output[20..])
    ensures output[..] == RegsBytes(Fold(Compress, IV, FinishedText(Concat(chunks), Carries(chunks)))) + old(output[20..])
  {
    hide Compress, RegsBytes, Digest;
    var ctx := new Context();
    ctx.Starts();
    for i := 0 to |chunks|
      invariant ctx.Valid() && fresh(ctx) && fresh(ctx.buffer)
      invariant ctx.message == Concat(chunks[..i]) && ctx.lost == Carries(chunks[..i])
      invariant output[..] == old(output[..])
    {
      ctx.Update(chunks[i]);
      assert chunks[..i + 1] == chunks[..i] + [chunks[i]];
    }
    assert chunks[..|chunks|] == chunks;
    CarriesBound(chunks);
    FinishedTextExact(Concat(chunks), Carries(chunks));
    ctx.Finish(output);
  }

  /** One-shot digest. */
  method Sha1Sum(input: seq<bv8>, output: array<bv8>)
    requires output.Length >= 20 && |input| < TWO_61
    modifies output
    ensures |input| < TWO_32 ==> output[..] == Digest(input) + old(output[20..])
    ensures output[..] == RegsBytes(Fold(Compress, IV, FinishedText(input, |input| / TWO_32))) + old(output[20..])
  {
    hide Compress, RegsBytes, Digest;
    var ctx := new Context();
    ctx.Starts();
    ctx.Update(input);
    assert [] + input == input;
    FinishedTextExact(input, |input| / TWO_32);
    ctx.Finish(output);
  }
}

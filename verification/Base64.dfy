/** Base64 as section 4 of RFC 4648 defines it, and the coder that works on it by shifts and tables. */
module Base64 {
  import opened Common

  const SPACE: byte := 32
  const CR: byte := 13
  const LF: byte := 10
  const PAD: byte := 61
  const BASE64_SIZE_T_MAX := 0xFFFF_FFFF_FFFF_FFFF

  /** The tables, in rows of sixteen. */
  const ENC_ROWS: seq<seq<byte>> := [
    [65, 66, 67, 68, 69, 70, 71, 72, 73, 74, 75, 76, 77, 78, 79, 80],
    [81, 82, 83, 84, 85, 86, 87, 88, 89, 90, 97, 98, 99, 100, 101, 102],
    [103, 104, 105, 106, 107, 108, 109, 110, 111, 112, 113, 114, 115, 116, 117, 118],
    [119, 120, 121, 122, 48, 49, 50, 51, 52, 53, 54, 55, 56, 57, 43, 47]]

  const DEC_ROWS: seq<seq<byte>> := [
    [127, 127, 127, 127, 127, 127, 127, 127, 127, 127, 127, 127, 127, 127, 127, 127],
    [127, 127, 127, 127, 127, 127, 127, 127, 127, 127, 127, 127, 127, 127, 127, 127],
    [127, 127, 127, 127, 127, 127, 127, 127, 127, 127, 127, 62, 127, 127, 127, 63],
    [52, 53, 54, 55, 56, 57, 58, 59, 60, 61, 127, 127, 127, 64, 127, 127],
    [127, 0, 1, 2, 3, 4, 5, 6, 7, 8, 9, 10, 11, 12, 13, 14],
    [15, 16, 17, 18, 19, 20, 21, 22, 23, 24, 25, 127, 127, 127, 127, 127],
    [127, 26, 27, 28, 29, 30, 31, 32, 33, 34, 35, 36, 37, 38, 39, 40],
    [41, 42, 43, 44, 45, 46, 47, 48, 49, 50, 51, 127, 127, 127, 127, 127]]

  /** Table 1 of the RFC. */
  function CharOf(digit: nat): (c: byte)
    requires digit < 64
  {
    if digit < 26 then 65 + digit
    else if digit < 52 then 97 + digit - 26
    else if digit < 62 then 48 + digit - 52
    else if digit == 62 then 43
    else 47
  }

  /** Table 1 read the other way. */
  function DigitOf(c: byte): (digit: int)
    ensures -1 <= digit < 64
  {
    if 65 <= c <= 90 then c - 65
    else if 97 <= c <= 122 then c - 97 + 26
    else if 48 <= c <= 57 then c - 48 + 52
    else if c == 43 then 62
    else if c == 47 then 63
    else -1
  }

  predicate EncRow(row: seq<byte>, from: nat)
    requires from <= 48
  {
    |row| == 16 && forall i :: 0 <= i < 16 ==> row[i] == CharOf(from + i)
  }

  /** What the decoding table should hold: 64 at the pad, 127 at what is no symbol. */
  function TableSays(c: byte): byte {
    if c == PAD then 64 else if DigitOf(c) < 0 then 127 else DigitOf(c)
  }

  predicate DecRow(row: seq<byte>, from: nat)
    requires from <= 112
  {
    |row| == 16 && forall i :: 0 <= i < 16 ==> row[i] == TableSays(from + i)
  }

  lemma EncRows()
    ensures |ENC_ROWS| == 4
    ensures EncRow(ENC_ROWS[0], 0) && EncRow(ENC_ROWS[1], 16) && EncRow(ENC_ROWS[2], 32) && EncRow(ENC_ROWS[3], 48)
  {}

  lemma LowDecRows()
    ensures |DEC_ROWS| == 8
    ensures DecRow(DEC_ROWS[0], 0) && DecRow(DEC_ROWS[1], 16) && DecRow(DEC_ROWS[2], 32) && DecRow(DEC_ROWS[3], 48)
  {}

  lemma HighDecRows()
    ensures |DEC_ROWS| == 8
    ensures DecRow(DEC_ROWS[4], 64) && DecRow(DEC_ROWS[5], 80) && DecRow(DEC_ROWS[6], 96) && DecRow(DEC_ROWS[7], 112)
  {}

  function EncMap(i: nat): byte
    requires i < 64
  {
    EncRows();
    ENC_ROWS[i / 16][i % 16]
  }

  function DecMap(c: nat): byte
    requires c < 128
  {
    LowDecRows();
    HighDecRows();
    DEC_ROWS[c / 16][c % 16]
  }

  lemma EncMapIs(i: nat)
    requires i < 64
    ensures EncMap(i) == CharOf(i)
  {
    EncRows();
    assert i == i / 16 * 16 + i % 16;
  }

  lemma DecMapIs(c: nat)
    requires c < 128
    ensures DecMap(c) == TableSays(c)
  {
    LowDecRows();
    HighDecRows();
    assert c == c / 16 * 16 + c % 16;
  }

  lemma CharsDecode(digit: nat)
    requires digit < 64
    ensures CharOf(digit) < 128 && DigitOf(CharOf(digit)) == digit && CharOf(digit) != PAD
  {}

  // ---- section 4 of the RFC ----

  /** Three octets put together into 24 bits. */
  function Group24(b0: byte, b1: byte, b2: byte): (v: nat)
    ensures v < 0x100_0000
  {
    b0 * 65536 + b1 * 256 + b2
  }

  /** The k-th of the four 6-bit groups of 24 bits, first bits first. */
  function Sixth(v: nat, k: nat): (digit: nat)
    requires k < 4
    ensures digit < 64
  {
    if k == 0 then v / 262144 % 64 else if k == 1 then v / 4096 % 64 else if k == 2 then v / 64 % 64 else v % 64
  }

  function Symbol(v: nat, k: nat): byte
    requires k < 4
  {
    CharOf(Sixth(v, k))
  }

  /** Short of three octets, zero bits are added and a pad stands for each group that is missing. */
  function Encoded(s: seq<byte>): seq<byte> {
    if |s| == 0 then []
    else if |s| == 1 then var v := Group24(s[0], 0, 0); [Symbol(v, 0), Symbol(v, 1), PAD, PAD]
    else if |s| == 2 then var v := Group24(s[0], s[1], 0); [Symbol(v, 0), Symbol(v, 1), Symbol(v, 2), PAD]
    else
      var v := Group24(s[0], s[1], s[2]);
      [Symbol(v, 0), Symbol(v, 1), Symbol(v, 2), Symbol(v, 3)] + Encoded(s[3..])
  }

  /** Four symbols for every three octets begun. */
  lemma {:induction false} EncodedLength(s: seq<byte>)
    ensures |Encoded(s)| == (|s| + 2) / 3 * 4
  {
    hide Symbol, Group24;
    if |s| >= 3 {
      EncodedLength(s[3..]);
    }
  }

  /** The six bits a symbol stands for; a pad stands for zeros. */
  function Six(c: byte): nat {
    if DigitOf(c) < 0 then 0 else DigitOf(c)
  }

  function Pads(s: seq<byte>): (n: nat)
    ensures n <= |s|
  {
    if s == [] then 0 else Pads(s[..|s| - 1]) + if s[|s| - 1] == PAD then 1 else 0
  }

  /** The octets of four symbols. */
  function Octets(s: seq<byte>): (r: seq<byte>)
    requires |s| == 4
    ensures |r| == 3
  {
    var v := Six(s[0]) * 262144 + Six(s[1]) * 4096 + Six(s[2]) * 64 + Six(s[3]);
    [v / 65536 % 256, v / 256 % 256, v % 256]
  }

  /** The octets of a group that the pads so far leave. */
  function Kept(group: seq<byte>, pads: nat): seq<byte>
    requires |group| == 4
  {
    if pads < 3 then Octets(group)[..3 - pads] else []
  }

  /** Reads symbols four at a time, dropping from every group as many octets as there have been pads. */
  function Decoded(s: seq<byte>, seen: nat): seq<byte> {
    if |s| < 4 then []
    else
      var pads := seen + Pads(s[..4]);
      Kept(s[..4], pads) + Decoded(s[4..], pads)
  }

  lemma Base64Digits(v: nat)
    requires v < 0x100_0000
    ensures v == Sixth(v, 0) * 262144 + Sixth(v, 1) * 4096 + Sixth(v, 2) * 64 + Sixth(v, 3)
  {
    var a, b, c := v / 64, v / 64 / 64, v / 64 / 64 / 64;
    assert a == v / 64 && b == v / 4096 && c == v / 262144 < 64;
    assert v == a * 64 + v % 64 && a == b * 64 + a % 64 && b == c * 64 + b % 64;
  }

  lemma OctetsBack(b0: byte, b1: byte, b2: byte)
    ensures var v := Group24(b0, b1, b2); v / 65536 % 256 == b0 && v / 256 % 256 == b1 && v % 256 == b2
  {
    var v := Group24(b0, b1, b2);
    assert v / 256 == b0 * 256 + b1;
    assert v / 65536 == b0;
  }

  /** Symbols of the table, then at most two pads. */
  predicate Fine(s: seq<byte>) {
    && Pads(s) <= 2
    && (forall i :: 0 <= i < |s| - Pads(s) ==> DigitOf(s[i]) >= 0)
    && forall i :: |s| - Pads(s) <= i < |s| ==> s[i] == PAD
  }

  /** A text to decode is not nothing. */
  predicate WellFormed(s: seq<byte>) {
    |s| > 0 && Fine(s)
  }

  lemma {:induction false} PadsAppend(a: seq<byte>, b: seq<byte>)
    ensures Pads(a + b) == Pads(a) + Pads(b)
  {
    if b == [] {
      assert a + b == a;
    } else {
      var n := |b| - 1;
      PadsAppend(a, b[..n]);
      assert (a + b)[..|a| + n] == a + b[..n];
    }
  }

  lemma {:induction false} NoPads(s: seq<byte>)
    requires forall i :: 0 <= i < |s| ==> s[i] != PAD
    ensures Pads(s) == 0
  {
    if s != [] {
      NoPads(s[..|s| - 1]);
    }
  }

  lemma {:induction false} AllPads(s: seq<byte>)
    requires forall i :: 0 <= i < |s| ==> s[i] == PAD
    ensures Pads(s) == |s|
  {
    if s != [] {
      AllPads(s[..|s| - 1]);
    }
  }

  /** Four symbols without a pad in front of a text. */
  lemma FineBehind(a: seq<byte>, s: seq<byte>)
    requires (forall i :: 0 <= i < |a| ==> DigitOf(a[i]) >= 0) && Fine(s)
    ensures Fine(a + s)
  {
    NoPads(a);
    PadsAppend(a, s);
  }

  lemma SymbolsDecode(v: nat)
    requires v < 0x100_0000
    ensures forall k :: 0 <= k < 4 ==> DigitOf(Symbol(v, k)) == Sixth(v, k) && Symbol(v, k) != PAD
  {
    forall k | 0 <= k < 4 ensures DigitOf(Symbol(v, k)) == Sixth(v, k) && Symbol(v, k) != PAD {
      CharsDecode(Sixth(v, k));
    }
  }

  /** The four symbols of 24 bits give the octets back. */
  lemma GroupBack(b0: byte, b1: byte, b2: byte)
    ensures var v := Group24(b0, b1, b2);
            Octets([Symbol(v, 0), Symbol(v, 1), Symbol(v, 2), Symbol(v, 3)]) == [b0, b1, b2]
  {
    hide Sixth, Symbol, DigitOf, Group24;
    var v := Group24(b0, b1, b2);
    SymbolsDecode(v);
    Base64Digits(v);
    OctetsBack(b0, b1, b2);
  }

  lemma MultipleOf64(k: nat)
    ensures 64 * k % 64 == 0 && 64 * k / 64 == k
  {}

  /** Pads stand for the zero bits that were added. */
  lemma PadsAreZeros(b0: byte, b1: byte)
    ensures Sixth(Group24(b0, b1, 0), 3) == 0 && Sixth(Group24(b0, 0, 0), 3) == 0 && Sixth(Group24(b0, 0, 0), 2) == 0
  {
    assert Group24(b0, b1, 0) == 64 * (b0 * 1024 + b1 * 4);
    assert Group24(b0, 0, 0) == 4096 * (b0 * 16);
    MultipleOf64(b0 * 1024 + b1 * 4);
    MultipleOf64(b0 * 1024);
    MultipleOf64(b0 * 16);
  }

  lemma LastGroupBack(b0: byte, b1: byte, c2: byte, c3: byte)
    requires var v := Group24(b0, b1, 0); Six(c2) == Sixth(v, 2) && Six(c3) == Sixth(v, 3)
    ensures var v := Group24(b0, b1, 0); Octets([Symbol(v, 0), Symbol(v, 1), c2, c3])[..2] == [b0, b1]
  {
    hide Sixth, Symbol, DigitOf, Group24;
    var v := Group24(b0, b1, 0);
    SymbolsDecode(v);
    Base64Digits(v);
    OctetsBack(b0, b1, 0);
  }

  lemma PadIsNoDigit()
    ensures DigitOf(PAD) < 0
  {}

  lemma OneOctet(b: byte)
    ensures Decoded(Encoded([b]), 0) == [b] && Fine(Encoded([b]))
  {
    hide Symbol, Sixth, DigitOf, Group24, Octets;
    var v := Group24(b, 0, 0);
    var e := Encoded([b]);
    SymbolsDecode(v);
    PadsAreZeros(b, 0);
    PadIsNoDigit();
    LastGroupBack(b, 0, PAD, PAD);
    NoPads(e[..2]);
    AllPads(e[2..]);
    PadsAppend(e[..2], e[2..]);
    assert e == e[..2] + e[2..] && e[..4] == e;
    assert Octets(e)[..1] == Octets(e)[..2][..1];
  }

  lemma TwoOctets(b0: byte, b1: byte)
    ensures Decoded(Encoded([b0, b1]), 0) == [b0, b1] && Fine(Encoded([b0, b1]))
  {
    hide Symbol, Sixth, DigitOf, Group24, Octets;
    var v := Group24(b0, b1, 0);
    var e := Encoded([b0, b1]);
    SymbolsDecode(v);
    PadsAreZeros(b0, b1);
    PadIsNoDigit();
    LastGroupBack(b0, b1, Symbol(v, 2), PAD);
    NoPads(e[..3]);
    AllPads(e[3..]);
    PadsAppend(e[..3], e[3..]);
    assert e == e[..3] + e[3..] && e[..4] == e;
  }

  function FourSymbolsOf(v: nat): (g: seq<byte>)
    ensures |g| == 4
  {
    [Symbol(v, 0), Symbol(v, 1), Symbol(v, 2), Symbol(v, 3)]
  }

  lemma FourAreDigits(v: nat)
    requires v < 0x100_0000
    ensures forall i :: 0 <= i < 4 ==> DigitOf(FourSymbolsOf(v)[i]) >= 0
    ensures Pads(FourSymbolsOf(v)) == 0
  {
    hide Symbol, DigitOf, Pads, Sixth;
    SymbolsDecode(v);
    var g := FourSymbolsOf(v);
    forall i | 0 <= i < 4 ensures DigitOf(g[i]) >= 0 && g[i] != PAD {
      assert g[i] == Symbol(v, i);
    }
    NoPads(g);
  }

  lemma FourKept(b0: byte, b1: byte, b2: byte)
    ensures Kept(FourSymbolsOf(Group24(b0, b1, b2)), 0) == [b0, b1, b2]
  {
    hide Symbol, Sixth, DigitOf, Group24, Octets;
    GroupBack(b0, b1, b2);
  }

  /** Reading on: only a fourth symbol brings out octets. */
  lemma DecodedFirst(s: seq<byte>, seen: nat)
    ensures |s| < 4 ==> Decoded(s, seen) == []
    ensures |s| >= 4 ==>
              var pads := seen + Pads(s[..4]); Decoded(s, seen) == Kept(s[..4], pads) + Decoded(s[4..], pads)
  {
    hide Kept, Pads;
  }

  /** One whole group in front of a text that reads back. */
  lemma GroupInFront(b0: byte, b1: byte, b2: byte, rest: seq<byte>)
    requires Fine(rest)
    ensures var e := FourSymbolsOf(Group24(b0, b1, b2)) + rest;
            Decoded(e, 0) == [b0, b1, b2] + Decoded(rest, 0) && Fine(e) && WellFormed(e)
  {
    hide FourSymbolsOf, Group24, Decoded, Pads, Fine, Kept;
    var g := FourSymbolsOf(Group24(b0, b1, b2));
    FourAreDigits(Group24(b0, b1, b2));
    FourKept(b0, b1, b2);
    FineBehind(g, rest);
    DecodedFirst(g + rest, 0);
    assert (g + rest)[..4] == g && (g + rest)[4..] == rest;
  }

  lemma EncodedFirst(s: seq<byte>)
    requires |s| > 2
    ensures Encoded(s) == FourSymbolsOf(Group24(s[0], s[1], s[2])) + Encoded(s[3..])
  {
    hide Symbol, Group24;
  }

  /** Decoding what was encoded gives the octets back, and the text is well formed. */
  lemma {:induction false} RoundTrip(s: seq<byte>)
    ensures Decoded(Encoded(s), 0) == s && Fine(Encoded(s))
    ensures |s| > 0 ==> WellFormed(Encoded(s))
  {
    hide Symbol, Sixth, DigitOf, Group24, Octets;
    if |s| == 1 {
      OneOctet(s[0]);
    } else if |s| == 2 {
      TwoOctets(s[0], s[1]);
    } else if |s| > 2 {
      hide Encoded, Decoded, Fine, WellFormed;
      RoundTrip(s[3..]);
      EncodedFirst(s);
      GroupInFront(s[0], s[1], s[2], Encoded(s[3..]));
      assert s == [s[0], s[1], s[2]] + s[3..];
    }
  }

  /** What the first pass allows the second to write: (6n + 7) >> 3, less the pads. */
  function Bound(s: seq<byte>): int {
    (6 * |s| + 7) / 8 - Pads(s)
  }

  lemma KeptLength()
    ensures forall g, pads: nat | |g| == 4 && pads < 4 :: |Kept(g, pads)| == 3 - pads
  {
    hide Octets;
  }

  lemma AtMostTwo(s: seq<byte>)
    requires Fine(s)
    ensures Pads(s) <= 2
  {}

  /** Pads before a symbol of the table are none. */
  lemma PadsBehind(g: seq<byte>, rest: seq<byte>)
    requires Fine(g + rest) && Pads(rest) < |rest|
    ensures Pads(g) == 0 && Fine(rest)
  {
    PadIsNoDigit();
    PadsAppend(g, rest);
    var s := g + rest;
    assert forall i :: 0 <= i < |rest| ==> rest[i] == s[|g| + i];
    if forall i :: 0 <= i < |rest| ==> rest[i] == PAD {
      AllPads(rest);
    }
    assert forall i :: 0 <= i < |g| ==> g[i] == s[i];
    NoPads(g);
  }

  /** The group the last symbol of the table is in, and at most a pad or two behind it. */
  lemma AtTheEnd(s: seq<byte>)
    requires Fine(s) && |s| >= 4 && Pads(s[4..]) == |s| - 4
    ensures |Decoded(s, 0)| <= Bound(s)
    ensures |s| % 4 == 0 ==> |Decoded(s, 0)| == Bound(s)
  {
    hide Kept, DigitOf, Pads;
    KeptLength();
    AtMostTwo(s);
    assert s == s[..4] + s[4..];
    PadsAppend(s[..4], s[4..]);
    assert |s[4..]| <= 2;
    assert Decoded(s[4..], Pads(s[..4])) == [];
  }

  lemma ShortBound(s: seq<byte>)
    requires Fine(s) && |s| < 4
    ensures Bound(s) >= 0 && (|s| % 4 == 0 ==> Bound(s) == 0)
  {
    hide DigitOf, Pads;
    AtMostTwo(s);
  }

  lemma FourMore(n: nat)
    ensures (4 + n) % 4 == n % 4
  {}

  /** A whole group without pads is worth three octets. */
  lemma BoundMore(g: seq<byte>, rest: seq<byte>)
    requires |g| == 4 && Pads(g) == 0
    ensures Bound(g + rest) == 3 + Bound(rest)
  {
    hide Pads;
    PadsAppend(g, rest);
  }

  /** The second pass stays within what the first computed, and fills it when the symbols come in fours. */
  lemma {:induction false} DecodedLength(s: seq<byte>)
    requires Fine(s)
    ensures |Decoded(s, 0)| <= Bound(s)
    ensures |s| % 4 == 0 ==> |Decoded(s, 0)| == Bound(s)
  {
    hide Kept, DigitOf, Pads, Decoded, Bound, Fine;
    KeptLength();
    DecodedFirst(s, 0);
    if |s| >= 4 {
      var g, rest := s[..4], s[4..];
      assert s == g + rest;
      if Pads(rest) == |rest| {
        AtTheEnd(s);
      } else {
        PadsBehind(g, rest);
        DecodedLength(rest);
        BoundMore(g, rest);
        FourMore(|rest|);
      }
    } else {
      ShortBound(s);
    }
  }

  // ---- which texts are ones of the standard ----

  /** Symbols in fours, with zeros for the bits of the last symbol that no octet needs. */
  predicate Canonical(s: seq<byte>) {
    && |s| % 4 == 0
    && (Pads(s) == 1 ==> Six(s[|s| - 2]) % 4 == 0)
    && (Pads(s) == 2 ==> Six(s[|s| - 3]) % 16 == 0)
  }

  lemma SixthsOf(d0: nat, d1: nat, d2: nat, d3: nat)
    requires d0 < 64 && d1 < 64 && d2 < 64 && d3 < 64
    ensures var v := d0 * 262144 + d1 * 4096 + d2 * 64 + d3;
            v < 0x100_0000 && Sixth(v, 0) == d0 && Sixth(v, 1) == d1 && Sixth(v, 2) == d2 && Sixth(v, 3) == d3
  {
    var v := d0 * 262144 + d1 * 4096 + d2 * 64 + d3;
    assert v / 64 == d0 * 4096 + d1 * 64 + d2;
    assert v / 4096 == d0 * 64 + d1;
    assert v / 262144 == d0;
  }

  lemma OctetsTogether(v: nat)
    requires v < 0x100_0000
    ensures Group24(v / 65536 % 256, v / 256 % 256, v % 256) == v
  {
    var b0, r := v / 65536, v % 65536;
    var b1, b2 := r / 256, r % 256;
    assert v == Group24(b0, b1, b2);
    OctetsBack(b0, b1, b2);
  }

  lemma CharBack(c: byte)
    requires DigitOf(c) >= 0
    ensures CharOf(DigitOf(c)) == c && Six(c) == DigitOf(c) < 64
  {}

  lemma CharsDiffer(d: nat, c: byte)
    requires d < 64 && DigitOf(c) >= 0
    ensures CharOf(d) == c <==> d == Six(c)
  {
    hide CharOf, DigitOf;
    CharBack(c);
    CharsDecode(d);
  }

  /** Four digits are the encoding of their three octets. */
  lemma GroupForth(g: seq<byte>)
    requires |g| == 4 && forall i :: 0 <= i < 4 ==> DigitOf(g[i]) >= 0
    ensures var o := Octets(g); FourSymbolsOf(Group24(o[0], o[1], o[2])) == g
  {
    hide DigitOf, Six, Sixth, CharOf, Group24;
    CharBack(g[0]);
    CharBack(g[1]);
    CharBack(g[2]);
    CharBack(g[3]);
    SixthsOf(Six(g[0]), Six(g[1]), Six(g[2]), Six(g[3]));
    OctetsTogether(Six(g[0]) * 262144 + Six(g[1]) * 4096 + Six(g[2]) * 64 + Six(g[3]));
  }

  lemma TwoOctetsOfThree(d0: nat, d1: nat, d2: nat)
    requires d0 < 64 && d1 < 64 && d2 < 64
    ensures var v := d0 * 262144 + d1 * 4096 + d2 * 64;
            Group24(v / 65536 % 256, v / 256 % 256, 0) == d0 * 262144 + d1 * 4096 + (d2 - d2 % 4) * 64
  {
    var h1, l1, h2, l2 := d1 / 16, d1 % 16, d2 / 4, d2 % 4;
    var b0, b1, b2 := d0 * 4 + h1, l1 * 16 + h2, l2 * 64;
    assert d0 * 262144 + d1 * 4096 + d2 * 64 == Group24(b0, b1, b2);
    OctetsBack(b0, b1, b2);
  }

  lemma OneOctetOfTwo(d0: nat, d1: nat)
    requires d0 < 64 && d1 < 64
    ensures var v := d0 * 262144 + d1 * 4096;
            Group24(v / 65536 % 256, 0, 0) == d0 * 262144 + (d1 - d1 % 16) * 4096
  {
    var h1, l1 := d1 / 16, d1 % 16;
    assert d0 * 262144 + d1 * 4096 == Group24(d0 * 4 + h1, l1 * 16, 0);
    OctetsBack(d0 * 4 + h1, l1 * 16, 0);
  }

  lemma PadIsZero()
    ensures Six(PAD) == 0
  {}

  lemma OnePadForth(g: seq<byte>)
    requires |g| == 4 && DigitOf(g[0]) >= 0 && DigitOf(g[1]) >= 0 && DigitOf(g[2]) >= 0 && g[3] == PAD
    ensures Encoded(Octets(g)[..2]) == g <==> Six(g[2]) % 4 == 0
  {
    hide DigitOf, Six, Sixth, CharOf, Group24;
    CharBack(g[0]);
    CharBack(g[1]);
    CharBack(g[2]);
    assert Six(PAD) == 0 by { PadIsNoDigit(); PadIsZero(); }
    var d := Six(g[2]) - Six(g[2]) % 4;
    TwoOctetsOfThree(Six(g[0]), Six(g[1]), Six(g[2]));
    SixthsOf(Six(g[0]), Six(g[1]), d, 0);
    CharsDiffer(d, g[2]);
  }

  lemma TwoPadsForth(g: seq<byte>)
    requires |g| == 4 && DigitOf(g[0]) >= 0 && DigitOf(g[1]) >= 0 && g[2] == PAD && g[3] == PAD
    ensures Encoded(Octets(g)[..1]) == g <==> Six(g[1]) % 16 == 0
  {
    hide DigitOf, Six, Sixth, CharOf, Group24;
    CharBack(g[0]);
    CharBack(g[1]);
    assert Six(PAD) == 0 by { PadIsZero(); }
    var d := Six(g[1]) - Six(g[1]) % 16;
    OneOctetOfTwo(Six(g[0]), Six(g[1]));
    SixthsOf(Six(g[0]), d, 0, 0);
    CharsDiffer(d, g[1]);
  }

  lemma EncodedNothing()
    ensures Encoded([]) == []
  {}

  lemma OneGroupForth(s: seq<byte>)
    requires |s| == 4 && Fine(s)
    ensures Encoded(Decoded(s, 0)) == s <==> Canonical(s)
  {
    hide DigitOf, Six, Octets, Encoded, Decoded, Pads, FourSymbolsOf, Group24;
    DecodedFirst(s, 0);
    DecodedFirst([], Pads(s));
    assert s[..4] == s && s[4..] == [];
    assert Decoded(s, 0) == Kept(s, Pads(s));
    if Pads(s) == 0 {
      GroupForth(s);
      EncodedFirst(Octets(s));
      EncodedNothing();
      assert Octets(s)[..3] == Octets(s) && Octets(s)[3..] == [];
      assert FourSymbolsOf(Group24(Octets(s)[0], Octets(s)[1], Octets(s)[2])) + [] == s;
    } else if Pads(s) == 1 {
      OnePadForth(s);
    } else {
      TwoPadsForth(s);
    }
  }

  /** A group without pads in front changes nothing about the end of a text. */
  lemma CanonicalBehind(g: seq<byte>, rest: seq<byte>)
    requires |g| == 4 && Pads(g) == 0 && rest != []
    ensures Canonical(g + rest) <==> Canonical(rest)
  {
    hide Six, Pads;
    PadsAppend(g, rest);
    var s := g + rest;
    FourMore(|rest|);
    if |rest| % 4 == 0 {
      assert |rest| >= 4;
      assert s[|s| - 2] == rest[|rest| - 2] && s[|s| - 3] == rest[|rest| - 3];
    }
  }

  /** The first group of a text that has more than one. */
  lemma FrontGroup(s: seq<byte>)
    requires Fine(s) && |s| % 4 == 0 && |s| > 4
    ensures Pads(s[..4]) == 0 && Fine(s[4..]) && |s[4..]| % 4 == 0
    ensures forall i :: 0 <= i < 4 ==> DigitOf(s[..4][i]) >= 0
    ensures Decoded(s, 0) == Octets(s[..4]) + Decoded(s[4..], 0)
  {
    hide DigitOf, Octets, Decoded, Pads;
    var g, rest := s[..4], s[4..];
    assert s == g + rest;
    AtMostTwo(s);
    FourMore(|rest|);
    PadsAppend(g, rest);
    PadsBehind(g, rest);
    DecodedFirst(s, 0);
    assert Octets(g)[..3] == Octets(g);
  }

  lemma NotInFours(s: seq<byte>)
    requires |s| % 4 != 0
    ensures !Canonical(s)
  {}

  lemma CanonicalNothing()
    ensures Canonical([])
  {}

  /** Of the texts the first pass takes, those that are the encoding of what they decode to are the ones in fours
      with nothing in the bits that no octet needs. */
  lemma {:induction false} EncodedAgain(s: seq<byte>)
    requires Fine(s)
    ensures Encoded(Decoded(s, 0)) == s <==> Canonical(s)
  {
    hide DigitOf, Six, Octets, Encoded, Decoded, Pads, FourSymbolsOf, Group24, Fine, Canonical;
    if |s| % 4 != 0 {
      EncodedLength(Decoded(s, 0));
      NotInFours(s);
    } else if s == [] {
      DecodedFirst(s, 0);
      EncodedNothing();
      CanonicalNothing();
    } else if |s| == 4 {
      OneGroupForth(s);
    } else {
      FrontGroup(s);
      var g, rest := s[..4], s[4..];
      var o, more := Octets(g), Decoded(rest, 0);
      EncodedAgain(rest);
      GroupForth(g);
      EncodedFirst(o + more);
      assert (o + more)[3..] == more && s == g + rest;
      CanonicalBehind(g, rest);
    }
  }

  /** Nothing else is an encoding: a text that is one at all is one of what it decodes to. */
  lemma EncodingsAreCanonical(octets: seq<byte>)
    ensures var s := Encoded(octets); Fine(s) && Canonical(s) && Decoded(s, 0) == octets
  {
    hide Encoded, Decoded, Fine, Canonical;
    RoundTrip(octets);
    EncodedAgain(Encoded(octets));
  }

  lemma FourLess(n: nat)
    requires n >= 4
    ensures (n - 4) % 4 == n % 4
    ensures n > 4 && n % 4 == 0 ==> n >= 8
  {}

  /** The symbols behind the last four are dropped. */
  lemma {:induction false} RemainderDropped(s: seq<byte>, seen: nat)
    ensures Decoded(s, seen) == Decoded(s[..|s| - |s| % 4], seen)
  {
    hide Kept, Pads, Decoded;
    var n := |s| - |s| % 4;
    DecodedFirst(s, seen);
    DecodedFirst(s[..n], seen);
    if |s| >= 4 {
      RemainderDropped(s[4..], seen + Pads(s[..4]));
      FourLess(|s|);
      assert s[..n][..4] == s[..4] && s[..n][4..] == s[4..][..n - 4];
    }
  }

  // ---- line breaks ----

  function Spaces(s: seq<byte>): (n: nat)
    ensures n <= |s| && (forall i :: 0 <= i < n ==> s[i] == SPACE) && (n < |s| ==> s[n] != SPACE)
  {
    if |s| > 0 && s[0] == SPACE then 1 + Spaces(s[1..]) else 0
  }

  /** The text without its line breaks: a break is LF or CR LF, and spaces stand only before one or at the end. */
  function Strip(s: seq<byte>): Option<seq<byte>>
    decreases |s|
  {
    var k := Spaces(s);
    var t := s[k..];
    if t == [] then Some([])
    else if |t| >= 2 && t[0] == CR && t[1] == LF then Strip(t[2..])
    else if t[0] == LF then Strip(t[1..])
    else if k > 0 then None
    else
      match Strip(t[1..])
      case None => None
      case Some(r) => Some([t[0]] + r)
  }

  predicate IsBreak(s: seq<byte>) {
    var t := s[Spaces(s)..];
    t == [LF] || t == [CR, LF]
  }

  lemma {:induction false} SpacesAppend(a: seq<byte>, b: seq<byte>)
    ensures Spaces(a + b) == if Spaces(a) < |a| then Spaces(a) else |a| + Spaces(b)
  {
    if a == [] {
      assert a + b == b;
    } else if a[0] == SPACE {
      assert (a + b)[1..] == a[1..] + b;
      SpacesAppend(a[1..], b);
    }
  }

  /** One step of Strip on a text that goes on with x. */
  lemma StripUnfolds(s: seq<byte>)
    ensures var k := Spaces(s);
            var t := s[k..];
            Strip(s) == if t == [] then Some([])
                        else if |t| >= 2 && t[0] == CR && t[1] == LF then Strip(t[2..])
                        else if t[0] == LF then Strip(t[1..])
                        else if k > 0 then None
                        else match Strip(t[1..]) case None => None case Some(r) => Some([t[0]] + r)
  {
    hide Spaces;
  }

  lemma StripOne(a: seq<byte>, x: seq<byte>)
    requires a != [] && a[|a| - 1] != SPACE && a[|a| - 1] != CR
    ensures var t := a[Spaces(a)..];
            && |t| > 0
            && var step := if |t| >= 2 && t[0] == CR && t[1] == LF then 2 else 1;
            Strip(a + x) == if step == 2 || t[0] == LF then Strip(t[step..] + x)
                            else if Spaces(a) > 0 then None
                            else match Strip(t[1..] + x) case None => None case Some(r) => Some([t[0]] + r)
  {
    hide Spaces, Strip;
    var k := Spaces(a);
    SpacesAppend(a, x);
    StripUnfolds(a + x);
    var t := a[k..];
    assert (a + x)[k..] == t + x;
    assert (t + x)[1..] == t[1..] + x;
    if |t| >= 2 {
      assert (t + x)[2..] == t[2..] + x;
    }
  }

  lemma DropAppend(a: seq<byte>, k: nat, b: seq<byte>)
    requires k <= |a|
    ensures (a + b)[k..] == a[k..] + b
  {}

  lemma Dropped(a: seq<byte>, b: seq<byte>)
    ensures |a + b| == |a| + |b| && (a + b)[|a|..] == b && forall i :: 0 <= i < |a| ==> (a + b)[i] == a[i]
  {}

  lemma BreakAtStart(brk: seq<byte>, b: seq<byte>)
    requires IsBreak(brk)
    ensures Strip(brk + b) == Strip(b)
  {
    hide Spaces, Strip;
    var k := Spaces(brk);
    var t := brk[k..];
    SpacesAppend(brk, b);
    StripUnfolds(brk + b);
    DropAppend(brk, k, b);
    Dropped(t, b);
  }

  /** A break put in at the start of a text, or behind anything but a space or a CR, does not change it. */
  lemma {:induction false} BreaksAreIgnored(a: seq<byte>, brk: seq<byte>, b: seq<byte>)
    requires IsBreak(brk) && (a != [] ==> a[|a| - 1] != SPACE && a[|a| - 1] != CR)
    ensures Strip(a + brk + b) == Strip(a + b)
    decreases |a|
  {
    hide Spaces, Strip;
    assert a + brk + b == a + (brk + b);
    if a == [] {
      BreakAtStart(brk, b);
      assert a + (brk + b) == brk + b && a + b == b;
    } else {
      StripOne(a, brk + b);
      StripOne(a, b);
      var t := a[Spaces(a)..];
      var step := if |t| >= 2 && t[0] == CR && t[1] == LF then 2 else 1;
      BreaksAreIgnored(t[step..], brk, b);
      assert t[step..] + (brk + b) == t[step..] + brk + b;
    }
  }

  function Blank(c: byte): bool {
    c == CR || c == LF || c == SPACE
  }

  /** Everything but blanks, in order: what the second pass looks at. */
  function Symbols(s: seq<byte>): seq<byte> {
    if s == [] then [] else Symbols(s[..|s| - 1]) + if Blank(s[|s| - 1]) then [] else [s[|s| - 1]]
  }

  lemma {:induction false} SymbolsAppend(a: seq<byte>, b: seq<byte>)
    ensures Symbols(a + b) == Symbols(a) + Symbols(b)
  {
    if b == [] {
      assert a + b == a;
    } else {
      hide Blank;
      var n := |b| - 1;
      SymbolsAppend(a, b[..n]);
      assert (a + b)[..|a| + n] == a + b[..n];
      assert (a + b)[|a| + n] == b[n];
    }
  }

  lemma {:induction false} BlanksHaveNone(s: seq<byte>)
    requires forall i :: 0 <= i < |s| ==> Blank(s[i])
    ensures Symbols(s) == []
  {
    if s != [] {
      BlanksHaveNone(s[..|s| - 1]);
    }
  }

  /** How Strip goes on from an accepted text. */
  lemma StripGoesOn(s: seq<byte>)
    requires Strip(s).Some?
    ensures var t := s[Spaces(s)..];
            if t == [] then Strip(s) == Some([])
            else if |t| >= 2 && t[0] == CR && t[1] == LF then Strip(s) == Strip(t[2..])
            else if t[0] == LF then Strip(s) == Strip(t[1..])
            else Strip(t[1..]).Some? && Strip(s) == Some([t[0]] + Strip(t[1..]).value)
  {
    hide Spaces;
  }

  /** Blanks in front do not count. */
  lemma SymbolsBehind(t: seq<byte>, n: nat)
    requires n <= |t| && forall i :: 0 <= i < n ==> Blank(t[i])
    ensures Symbols(t) == Symbols(t[n..])
  {
    hide Symbols;
    BlanksHaveNone(t[..n]);
    SymbolsAppend(t[..n], t[n..]);
    assert t == t[..n] + t[n..];
  }

  predicate NoBlanks(s: seq<byte>) {
    forall i :: 0 <= i < |s| ==> !Blank(s[i])
  }

  lemma NoBlanksBehind(c: byte, s: seq<byte>)
    requires NoBlanks([c] + s)
    ensures !Blank(c) && NoBlanks(s)
  {
    assert ([c] + s)[0] == c;
    assert forall i :: 0 <= i < |s| ==> s[i] == ([c] + s)[i + 1];
  }

  lemma OneSymbol(s: seq<byte>)
    requires |s| == 1 && !Blank(s[0])
    ensures Symbols(s) == s
  {
    assert s[..0] == [];
  }

  /** The two passes see the same symbols in any text the first one accepts. */
  lemma {:induction false} PassesAgree(s: seq<byte>)
    requires Strip(s).Some? && NoBlanks(Strip(s).value)
    ensures Symbols(s) == Strip(s).value
    decreases |s|
  {
    hide Symbols, Spaces, Strip;
    var k := Spaces(s);
    var t := s[k..];
    StripGoesOn(s);
    SymbolsAppend(s[..k], t);
    assert s == s[..k] + t;
    BlanksHaveNone(s[..k]);
    if t == [] {
      BlanksHaveNone(t);
    } else if |t| >= 2 && t[0] == CR && t[1] == LF {
      SymbolsBehind(t, 2);
      PassesAgree(t[2..]);
    } else if t[0] == LF {
      SymbolsBehind(t, 1);
      PassesAgree(t[1..]);
    } else {
      hide NoBlanks;
      NoBlanksBehind(t[0], Strip(t[1..]).value);
      OneSymbol(t[..1]);
      SymbolsAppend(t[..1], t[1..]);
      assert t == t[..1] + t[1..];
      PassesAgree(t[1..]);
    }
  }

  lemma SymbolsAreNotBlank(s: seq<byte>)
    requires Fine(s)
    ensures NoBlanks(s)
  {}

  // ---- the coder ----

  /** A text in front of what is left to strip. */
  function Behind(done: seq<byte>, rest: Option<seq<byte>>): Option<seq<byte>> {
    if rest.None? then None else Some(done + rest.value)
  }

  lemma FinePrefix(p: seq<byte>, q: seq<byte>)
    requires Fine(p + q)
    ensures Fine(p)
  {
    PadsAppend(p, q);
    PadIsNoDigit();
    var s := p + q;
    assert forall i :: 0 <= i < |p| ==> p[i] == s[i];
    assert forall i :: 0 <= i < |q| ==> q[i] == s[|p| + i];
    if Pads(q) < |q| {
      PadsBehind(p, q);
    }
  }

  /** What may follow a fine text: a symbol of the table where there is no pad yet, or one of two pads. */
  lemma FineSnoc(s: seq<byte>, c: byte)
    requires Fine(s)
    ensures Fine(s + [c]) <==> if c == PAD then Pads(s) < 2 else DigitOf(c) >= 0 && Pads(s) == 0
    ensures Pads(s + [c]) == Pads(s) + if c == PAD then 1 else 0
  {
    var t := s + [c];
    assert t[..|s|] == s;
    PadIsNoDigit();
    assert forall i :: 0 <= i < |s| ==> t[i] == s[i];
    assert t[|s|] == c;
  }

  lemma StripSymbol(s: seq<byte>)
    requires Spaces(s) == 0 && s != [] && s[0] != LF && !(|s| >= 2 && s[0] == CR && s[1] == LF)
    ensures Strip(s) == Behind([s[0]], Strip(s[1..]))
  {
    assert s[0..] == s;
  }

  /** The text goes on with a character that may not stand there. */
  lemma NotWellFormed(done: seq<byte>, rest: seq<byte>)
    requires Spaces(rest) == 0 && rest != [] && rest[0] != LF && !(|rest| >= 2 && rest[0] == CR && rest[1] == LF)
    requires !Fine(done + [rest[0]])
    ensures var s := Behind(done, Strip(rest)); s.Some? ==> !WellFormed(s.value)
  {
    hide Fine, Strip, Spaces;
    StripSymbol(rest);
    if Strip(rest).Some? {
      var r := Strip(rest[1..]).value;
      assert done + ([rest[0]] + r) == done + [rest[0]] + r;
      if Fine(done + [rest[0]] + r) {
        FinePrefix(done + [rest[0]], r);
      }
    }
  }

  /** Why Strip gives up: a space inside a line. */
  lemma SpaceInside(s: seq<byte>, x: nat)
    requires x == Spaces(s) && 0 < x < |s| && s[x] != LF && !(|s| - x >= 2 && s[x] == CR && s[x + 1] == LF)
    ensures Strip(s).None?
  {}

  lemma {:induction false} SpacesRun(s: seq<byte>, x: nat)
    requires x <= |s| && forall i :: 0 <= i < x ==> s[i] == SPACE
    ensures Spaces(s) == x + Spaces(s[x..])
  {
    if x > 0 {
      SpacesRun(s[1..], x - 1);
      assert s[1..][x - 1..] == s[x..];
    } else {
      assert s[0..] == s;
    }
  }

  /** Strip after x spaces, when the line breaks there or the text ends. */
  lemma StripBreak(s: seq<byte>, x: nat)
    requires x == Spaces(s)
    ensures x == |s| ==> Strip(s) == Some([])
    ensures x < |s| && s[x] == LF ==> Strip(s) == Strip(s[x + 1..])
    ensures |s| - x >= 2 && s[x] == CR && s[x + 1] == LF ==> Strip(s) == Strip(s[x + 1..])
  {
    var t := s[x..];
    if |t| > 0 {
      assert t[1..] == s[x + 1..];
    }
    if |t| >= 2 && t[0] == CR && t[1] == LF {
      assert s[x + 1..][1..] == t[2..];
      assert s[x + 1..][0..] == s[x + 1..];
    }
  }

  /** What the decoding table tells of a character. */
  lemma DecMapSays(c: byte)
    ensures c < 128 ==> (DecMap(c) == 127 <==> c != PAD && DigitOf(c) < 0) && (DecMap(c) < 64 <==> DigitOf(c) >= 0)
    ensures c < 128 && (c == PAD || DigitOf(c) >= 0) ==> DecMap(c) % 64 == Six(c) && (DecMap(c) == 64 <==> c == PAD)
    ensures c >= 128 ==> DigitOf(c) < 0 && c != PAD
  {
    hide DecMap;
    if c < 128 {
      DecMapIs(c);
    }
  }

  lemma BoundOf(n: nat)
    ensures 6 * (n / 8) + (6 * (n % 8) + 7) / 8 == (6 * n + 7) / 8
  {
    var q, r := n / 8, n % 8;
    assert n == 8 * q + r;
    assert 6 * n + 7 == 8 * (6 * q) + (6 * r + 7);
  }

  predicate Accepts(dst_is_null: bool, dlen: nat, src: seq<byte>) {
    Strip(src).Some? && WellFormed(Strip(src).value) && !dst_is_null && Bound(Strip(src).value) <= dlen
  }

  lemma FineNothing()
    ensures Fine([])
  {}

  lemma NoSpace(s: seq<byte>)
    requires s != [] ==> s[0] != SPACE
    ensures Spaces(s) == 0
  {}

  lemma BehindSnoc(done: seq<byte>, c: byte, rest: Option<seq<byte>>)
    ensures Behind(done, Behind([c], rest)) == Behind(done + [c], rest)
  {
    if rest.Some? {
      assert done + ([c] + rest.value) == done + [c] + rest.value;
    }
  }

  /** The first pass accepts exactly the texts that are well formed once their line breaks are gone, when the
      destination can hold what the second pass may write. */
  method CheckValid(dst_is_null: bool, dlen: nat, src: seq<byte>) returns (rc: int)
    ensures rc == 0 || rc == -1
    ensures rc == 0 <==> Accepts(dst_is_null, dlen, src)
  {
    hide Strip, Spaces, Fine, Pads, DigitOf, DecMap;
    var i: nat, n: nat, j: nat := 0, 0, 0;
    ghost var done: seq<byte> := [];
    assert src[0..] == src && (Strip(src).Some? ==> [] + Strip(src).value == Strip(src).value);
    FineNothing();
    while i < |src|
      invariant i <= |src| && n == |done| && j == Pads(done) && Fine(done)
      invariant Strip(src) == Behind(done, Strip(src[i..]))
    {
      ghost var start := i;
      var x := 0;
      while i < |src| && src[i] == SPACE
        invariant start <= i <= |src| && x == i - start && forall k :: start <= k < i ==> src[k] == SPACE
      {
        i := i + 1;
        x := x + 1;
      }
      assert src[start..][x..] == src[i..];
      SpacesRun(src[start..], x);
      NoSpace(src[i..]);
      StripBreak(src[start..], x);
      if i == |src| {
        break;
      }
      assert src[start..][x + 1..] == src[i + 1..];
      if |src| - i >= 2 && src[i] == CR && src[i + 1] == LF {
        i := i + 1;
        continue;
      }
      if src[i] == LF {
        i := i + 1;
        continue;
      }
      if x != 0 {
        SpaceInside(src[start..], x);
        return -1;
      }
      var c := src[i];
      FineSnoc(done, c);
      StripSymbol(src[i..]);
      if !Fine(done + [c]) {
        NotWellFormed(done, src[i..]);
      }
      DecMapSays(c);
      if c == PAD {
        j := j + 1;
        if j > 2 {
          return -1;
        }
      }
      if c > 127 || DecMap(c) == 127 {
        return -1;
      }
      if DecMap(c) < 64 && j != 0 {
        return -1;
      }
      n := n + 1;
      BehindSnoc(done, c, Strip(src[i + 1..]));
      assert src[i..][1..] == src[i + 1..];
      done := done + [c];
      i := i + 1;
    }
    StripBreak([], 0);
    NoSpace([]);
    assert src[|src|..] == [] && done + [] == done;
    if n == 0 {
      return -1;
    }
    BoundOf(n);
    var out := 6 * (n / 8) + (6 * (n % 8) + 7) / 8 - j;
    return if dst_is_null || dlen < out then -1 else 0;
  }

  // ---- the second pass ----

  /** What the symbols of a group so far come to, six bits each. */
  function Pending(s: seq<byte>): nat {
    if s == [] then 0 else Pending(s[..|s| - 1]) * 64 + Six(s[|s| - 1])
  }

  function Pow64(n: nat): (p: nat)
    requires n <= 4
    ensures p > 0
  {
    if n == 0 then 1 else if n == 1 then 64 else if n == 2 then 4096 else if n == 3 then 262144 else 16777216
  }

  lemma Split64(a: nat, r: nat)
    requires r < 64
    ensures (64 * a + r) % 64 == r
  {}

  lemma Split4096(a: nat, r: nat)
    requires r < 4096
    ensures (4096 * a + r) % 4096 == r
  {}

  lemma Shift1(q: nat, y: nat, digit: nat)
    requires digit < 64
    ensures (67108864 * q + y) % 64 == y % 64 && (y * 64 + digit) % 4096 == y % 64 * 64 + digit
  {
    var a: nat, r: nat := y / 64, y % 64;
    Split64(1048576 * q + a, r);
    Split4096(a, r * 64 + digit);
  }

  lemma Shift2(q: nat, y: nat, digit: nat)
    requires digit < 64
    ensures (67108864 * q + y) % 4096 == y % 4096 && (y * 64 + digit) % 262144 == y % 4096 * 64 + digit
  {
    var a, r := y / 4096, y % 4096;
    assert 67108864 * q + y == 4096 * (16384 * q + a) + r;
    assert y * 64 + digit == 262144 * a + (r * 64 + digit);
  }

  lemma Shift3(q: nat, y: nat, digit: nat)
    requires digit < 64
    ensures (67108864 * q + y) % 262144 == y % 262144 && (y * 64 + digit) % 16777216 == y % 262144 * 64 + digit
  {
    var a, r := y / 262144, y % 262144;
    assert 67108864 * q + y == 262144 * (256 * q + a) + r;
    assert y * 64 + digit == 16777216 * a + (r * 64 + digit);
  }

  /** The accumulator is 32 bits wide. */
  function ShiftedIn(x: nat, digit: nat): nat {
    x * 64 % 0x1_0000_0000 + digit
  }

  lemma Carry(x: nat, q: nat, y: nat)
    requires x == 67108864 * q + y && y < 67108864
    ensures x * 64 % 0x1_0000_0000 == y * 64
  {}

  /** Shifting six bits into a 32-bit accumulator: what falls off the top is no longer part of the group. */
  lemma ShiftIn(x: nat, digit: nat, n: nat)
    requires n < 4 && digit < 64
    ensures ShiftedIn(x, digit) % Pow64(n + 1) == x % Pow64(n) * 64 + digit
    ensures ShiftedIn(x, digit) < 0x1_0000_0000
  {
    var q, y := x / 67108864, x % 67108864;
    Carry(x, q, y);
    if n == 0 {
      assert (y * 64 + digit) % 64 == digit;
    } else if n == 1 {
      Shift1(q, y, digit);
    } else if n == 2 {
      Shift2(q, y, digit);
    } else {
      Shift3(q, y, digit);
    }
  }

  lemma PendingFour(s: seq<byte>)
    requires |s| == 4
    ensures Pending(s) == Six(s[0]) * 262144 + Six(s[1]) * 4096 + Six(s[2]) * 64 + Six(s[3])
  {
    hide Six;
    assert s[..1][..0] == [] && s[..2][..1] == s[..1] && s[..3][..2] == s[..2];
    assert Pending(s[..1]) == Six(s[0]);
    assert Pending(s[..2]) == Pending(s[..1]) * 64 + Six(s[1]);
    assert Pending(s[..3]) == Pending(s[..2]) * 64 + Six(s[2]);
  }

  lemma Mod256(a: nat, z: nat)
    ensures (256 * a + z) % 256 == z % 256
  {}

  lemma LowOctet(q: nat, y: nat)
    ensures (16777216 * q + y) % 256 == y % 256
  {
    Mod256(65536 * q + y / 256, y % 256);
    Mod256(y / 256, y % 256);
    assert 16777216 * q + y == 256 * (65536 * q + y / 256) + y % 256 && y == 256 * (y / 256) + y % 256;
  }

  lemma TopOctet(q: nat, y: nat)
    ensures (16777216 * q + y) / 65536 % 256 == y / 65536 % 256
  {
    assert (16777216 * q + y) / 65536 == 256 * q + y / 65536;
    Mod256(q, y / 65536);
  }

  lemma MiddleOctet(q: nat, y: nat)
    ensures (16777216 * q + y) / 256 % 256 == y / 256 % 256
  {
    assert (16777216 * q + y) / 256 == 65536 * q + y / 256;
    Mod256(256 * q, y / 256);
  }

  lemma LowBits(x: nat)
    ensures var y := x % 16777216;
            x / 65536 % 256 == y / 65536 % 256 && x / 256 % 256 == y / 256 % 256 && x % 256 == y % 256
  {
    var q, y := x / 16777216, x % 16777216;
    assert x == 16777216 * q + y;
    TopOctet(q, y);
    MiddleOctet(q, y);
    LowOctet(q, y);
  }

  /** The octets of a group are in the low 24 bits of the accumulator. */
  lemma LowOctets(x: nat, s: seq<byte>)
    requires |s| == 4 && x % 16777216 == Pending(s)
    ensures Octets(s) == [x / 65536 % 256, x / 256 % 256, x % 256]
  {
    hide Six;
    PendingFour(s);
    LowBits(x);
    var v := Six(s[0]) * 262144 + Six(s[1]) * 4096 + Six(s[2]) * 64 + Six(s[3]);
    assert v == x % 16777216;
    assert Octets(s)[0] == v / 65536 % 256;
    assert Octets(s)[1] == v / 256 % 256;
  }

  lemma ShortSnoc(s: seq<byte>, c: byte, seen: nat)
    requires |s| < 4
    ensures var t := s + [c];
            Decoded(t, seen) == Decoded(s, seen) + if |t| % 4 != 0 then [] else Kept(t[|t| - 4..], seen + Pads(t))
  {
    hide Kept, Pads, Decoded;
    var t := s + [c];
    DecodedFirst(s, seen);
    DecodedFirst(t, seen);
    if |s| == 3 {
      DecodedFirst([], seen + Pads(t));
      assert t[..4] == t && t[4..] == [] && t[0..] == t;
    }
  }

  lemma TailOfAppend(a: seq<byte>, u: seq<byte>, k: nat)
    requires k <= |u|
    ensures (a + u)[|a| + |u| - k..] == u[|u| - k..]
  {}

  /** The groups of four of a text and of the text less its first group. */
  lemma GroupsOfSnoc(s: seq<byte>, c: byte)
    requires |s| >= 4
    ensures var t, u := s + [c], s[4..] + [c];
            && t[..4] == s[..4] && t[4..] == u && Pads(t) == Pads(s[..4]) + Pads(u)
            && (|t| % 4 == 0 ==> |u| >= 4 && u[|u| - 4..] == t[|t| - 4..])
            && (|t| % 4 == 0 <==> |u| % 4 == 0)
  {
    hide Pads;
    var t, u := s + [c], s[4..] + [c];
    assert t == s[..4] + u;
    PadsAppend(s[..4], u);
    FourLess(|t|);
    if |u| >= 4 { TailOfAppend(s[..4], u, 4); }
  }

  lemma {:induction false} DecodedSnoc(s: seq<byte>, c: byte, seen: nat)
    ensures var t := s + [c];
            Decoded(t, seen) == Decoded(s, seen) + if |t| % 4 != 0 then [] else Kept(t[|t| - 4..], seen + Pads(t))
    decreases |s|
  {
    hide Kept, Pads, Decoded;
    var t := s + [c];
    if |s| >= 4 {
      DecodedFirst(s, seen);
      DecodedFirst(t, seen);
      DecodedSnoc(s[4..], c, seen + Pads(s[..4]));
      GroupsOfSnoc(s, c);
    } else {
      ShortSnoc(s, c, seen);
    }
  }

  /** No part of the symbols decodes to more than the whole. */
  lemma {:induction false} DecodedGrows(s: seq<byte>, more: seq<byte>)
    ensures |Decoded(s, 0)| <= |Decoded(s + more, 0)|
    decreases |more|
  {
    hide Decoded, Octets;
    if more == [] {
      assert s + more == s;
    } else {
      DecodedSnoc(s, more[0], 0);
      DecodedGrows(s + [more[0]], more[1..]);
      assert s + [more[0]] + more[1..] == s + more;
    }
  }

  /** The second pass after the symbols s: n of them wait in x for the rest of their group, and every pad has
      taken one from j. */
  predicate Reading(s: seq<byte>, n: nat, j: int, x: nat) {
    && n < 4 && n <= |s| && |s| % 4 == n && j == 3 - Pads(s) && x < 0x1_0000_0000
    && x % Pow64(n) == Pending(s[|s| - n..])
  }

  lemma ReadingNothing()
    ensures Reading([], 0, 3, 0) && Symbols([]) == [] && Decoded([], 0) == []
  {}

  lemma SymbolCounts(s: seq<byte>, c: byte)
    requires Fine(s + [c])
    ensures c < 128 && DecMap(c) % 64 == Six(c) < 64
    ensures Pads(s + [c]) == Pads(s) + (if DecMap(c) == 64 then 1 else 0) <= 2
  {
    hide Fine, DecMap, DigitOf;
    FinePrefix(s, [c]);
    FineSnoc(s, c);
    DecMapSays(c);
    AtMostTwo(s + [c]);
  }

  lemma PowerEnds(x: nat)
    ensures Pow64(4) == 16777216 && x % Pow64(0) == 0
  {}

  lemma NextCount(k: nat, n: nat)
    requires n < 4 && k % 4 == n
    ensures (k + 1) % 4 == if n == 3 then 0 else n + 1
  {}

  /** The symbols waiting when one more has come. */
  lemma PendingSnoc(s: seq<byte>, c: byte, n: nat)
    requires n <= |s|
    ensures var group := (s + [c])[|s| - n..];
            |group| == n + 1 && Pending(group) == Pending(s[|s| - n..]) * 64 + Six(c)
  {
    hide Six;
    var group := (s + [c])[|s| - n..];
    assert group[..n] == s[|s| - n..] && group[n] == c;
  }

  lemma NonePending(t: seq<byte>)
    ensures Pending(t[|t|..]) == 0
  {}

  lemma ReadingSnoc(s: seq<byte>, c: byte, n: nat, j: int, x: nat)
    requires Fine(s + [c]) && Reading(s, n, j, x)
    ensures c < 128
    ensures var x', j' := ShiftedIn(x, DecMap(c) % 64), if DecMap(c) == 64 then j - 1 else j;
            && 1 <= j' <= 3 && j' == 3 - Pads(s + [c]) && Reading(s + [c], if n == 3 then 0 else n + 1, j', x')
            && x' % Pow64(n + 1) == Pending((s + [c])[|s| - n..])
  {
    hide DecMap, Six, Pow64, DigitOf, Fine, Pads, ShiftedIn, Pending;
    SymbolCounts(s, c);
    ShiftIn(x, DecMap(c) % 64, n);
    NextCount(|s|, n);
    PendingSnoc(s, c, n);
    if n == 3 {
      PowerEnds(ShiftedIn(x, DecMap(c) % 64));
      NonePending(s + [c]);
    }
  }

  /** One symbol more: the accumulator, the pads so far, and what decodes. */
  lemma SymbolRead(s: seq<byte>, c: byte, n: nat, j: int, x: nat)
    requires Fine(s + [c]) && Reading(s, n, j, x)
    ensures c < 128
    ensures var t, x', j' := s + [c], ShiftedIn(x, DecMap(c) % 64), if DecMap(c) == 64 then j - 1 else j;
            && 1 <= j' <= 3 && Reading(t, if n == 3 then 0 else n + 1, j', x')
            && Decoded(t, 0) == Decoded(s, 0)
                               + if n == 3 then [x' / 65536 % 256, x' / 256 % 256, x' % 256][..j'] else []
  {
    hide Octets, Decoded, DecMap, Six, Pow64, DigitOf, Fine, Pads, ShiftedIn, Pending;
    var t := s + [c];
    ReadingSnoc(s, c, n, j, x);
    NextCount(|s|, n);
    DecodedSnoc(s, c, 0);
    if n == 3 {
      PowerEnds(ShiftedIn(x, DecMap(c) % 64));
      LowOctets(ShiftedIn(x, DecMap(c) % 64), t[|t| - 4..]);
    }
  }

  method WriteOctets(dst: array<byte>, p: nat, x: nat, j: int) returns (p': nat)
    requires 1 <= j <= 3 && p + j <= dst.Length
    modifies dst
    ensures p' == p + j
    ensures dst[..p'] == old(dst[..p]) + [x / 65536 % 256, x / 256 % 256, x % 256][..j]
    ensures forall k :: p' <= k < dst.Length ==> dst[k] == old(dst[k])
  {
    p' := p;
    if j > 0 {
      dst[p'] := x / 65536 % 256;
      p' := p' + 1;
    }
    if j > 1 {
      dst[p'] := x / 256 % 256;
      p' := p' + 1;
    }
    if j > 2 {
      dst[p'] := x % 256;
      p' := p' + 1;
    }
  }

  lemma SymbolsNext(s: seq<byte>, i: nat)
    requires i < |s|
    ensures Symbols(s[..i + 1]) == Symbols(s[..i]) + if Blank(s[i]) then [] else [s[i]]
  {
    assert s[..i + 1][..i] == s[..i];
  }

  /** An encoded text is its own stripped text: it holds no blanks. */
  lemma {:induction false} StripsToItself(s: seq<byte>)
    requires NoBlanks(s)
    ensures Strip(s) == Some(s)
    decreases |s|
  {
    hide Strip;
    NoSpace(s);
    if s == [] {
      StripBreak(s, 0);
    } else {
      StripSymbol(s);
      StripsToItself(s[1..]);
      assert s == [s[0]] + s[1..];
    }
  }

  /** "QQ=" is accepted, although it holds no group of four, and decodes to nothing. */
  lemma UnfinishedGroupIsLost()
    ensures var s := [81, 81, PAD]; Accepts(false, 2, s) && Strip(s) == Some(s) && Decoded(s, 0) == [] && !Canonical(s)
  {
    hide Strip;
    var s: seq<byte> := [81, 81, PAD];
    StripsToItself(s);
    NoPads([81, 81]);
    AllPads([PAD]);
    PadsAppend([81, 81], [PAD]);
    assert s == [81, 81] + [PAD];
  }

  lemma TwoPadsAre(a: byte, b: byte)
    requires a != PAD && b != PAD
    ensures var s := [a, b, PAD, PAD]; Pads(s) == 2 && Decoded(s, 0) == Octets(s)[..1]
  {
    hide Pads, Octets, Decoded;
    var s := [a, b, PAD, PAD];
    NoPads([a, b]);
    AllPads([PAD, PAD]);
    PadsAppend([a, b], [PAD, PAD]);
    assert s == [a, b] + [PAD, PAD];
    DecodedFirst(s, 0);
    DecodedFirst([], 2);
    assert s[..4] == s && s[4..] == [];
  }

  lemma QrDecodes()
    ensures var s := [81, 82, PAD, PAD]; Fine(s) && !Canonical(s) && Decoded(s, 0) == [65]
  {
    hide Pads, Decoded;
    TwoPadsAre(81, 82);
  }

  lemma QqDecodes()
    ensures var s := [81, 81, PAD, PAD]; Decoded(s, 0) == [65] && Encoded([65]) == s
  {
    hide Pads, Decoded;
    TwoPadsAre(81, 81);
  }

  /** "QR==" is accepted and decodes to what "QQ==" is the encoding of. */
  lemma LooseBitsAreLost()
    ensures var s, t := [81, 82, PAD, PAD], [81, 81, PAD, PAD];
            && Accepts(false, 1, s) && Strip(s) == Some(s) && !Canonical(s)
            && Decoded(s, 0) == Decoded(t, 0) == [65] && Encoded([65]) == t
  {
    hide Strip, Fine, Pads, Decoded, Encoded, Canonical;
    StripsToItself([81, 82, PAD, PAD]);
    TwoPadsAre(81, 82);
    QrDecodes();
    QqDecodes();
  }

  /** Decodes a text, a group of four symbols at a time, in no more room than the first pass asked for. The octets
      are the ones the text is the encoding of exactly when it is a text of the standard; the symbols behind the last
      group, and the bits of the last symbol that no octet needs, are dropped. */
  method Decode(dst: array?<byte>, dlen: nat, src: seq<byte>) returns (rc: int, olen: nat)
    requires dst != null ==> dlen <= dst.Length
    modifies dst
    ensures rc == if Accepts(dst == null, dlen, src) then 0 else -1
    ensures rc != 0 ==> olen == 0 && (dst != null ==> dst[..] == old(dst[..]))
    ensures rc == 0 ==>
              var s := Strip(src).value;
              && olen == |Decoded(s, 0)| <= Bound(s) <= dlen
              && dst[..olen] == Decoded(s, 0) && dst[olen..] == old(dst[olen..])
              && (Encoded(dst[..olen]) == s <==> Canonical(s))
  {
    hide Strip, Fine, Pads, Encoded, Canonical, Decoded, DigitOf, Symbols, DecMap, Reading, ShiftedIn;
    var ok := CheckValid(dst == null, dlen, src);
    if ok != 0 {
      return -1, 0;
    }
    ghost var s := Strip(src).value;
    SymbolsAreNotBlank(s);
    PassesAgree(src);
    DecodedLength(s);
    EncodedAgain(s);
    var i: nat, n: nat, j: int, x: nat, p: nat := 0, 0, 3, 0, 0;
    ghost var done: seq<byte> := [];
    ReadingNothing();
    assert src[..0] == [] && src[..|src|] == src;
    while i < |src|
      invariant i <= |src| && done == Symbols(src[..i])
      invariant Reading(done, n, j, x)
      invariant p == |Decoded(done, 0)| <= dlen && dst[..p] == Decoded(done, 0)
      invariant forall k :: p <= k < dst.Length ==> dst[k] == old(dst[k])
    {
      var c := src[i];
      SymbolsNext(src, i);
      i := i + 1;
      if c == CR || c == LF || c == SPACE {
        continue;
      }
      ghost var rest := Symbols(src[i..]);
      assert src == src[..i] + src[i..];
      SymbolsAppend(src[..i], src[i..]);
      FinePrefix(done + [c], rest);
      DecodedGrows(done + [c], rest);
      SymbolRead(done, c, n, j, x);
      done := done + [c];
      if DecMap(c) == 64 {
        j := j - 1;
      }
      x := ShiftedIn(x, DecMap(c) % 64);
      n := n + 1;
      if n == 4 {
        n := 0;
        p := WriteOctets(dst, p, x, j);
      }
    }
    return 0, p;
  }

  lemma FirstSixths(h1: nat, l1: nat, h2: nat, low: nat)
    requires h1 < 64 && l1 < 4 && h2 < 16 && low < 4096
    ensures var v := h1 * 262144 + l1 * 65536 + h2 * 4096 + low;
            v / 262144 % 64 == h1 && v / 4096 % 64 == l1 * 16 + h2
  {
    var v := h1 * 262144 + l1 * 65536 + h2 * 4096 + low;
    assert v / 4096 == h1 * 64 + (l1 * 16 + h2);
    assert v / 262144 == h1;
  }

  lemma LastSixths(high: nat, l2: nat, h3: nat, l3: nat)
    requires l2 < 16 && h3 < 4 && l3 < 64
    ensures var v := high * 4096 + l2 * 256 + h3 * 64 + l3;
            v / 64 % 64 == l2 * 4 + h3 && v % 64 == l3
  {
    var v := high * 4096 + l2 * 256 + h3 * 64 + l3;
    assert v / 64 == high * 64 + (l2 * 4 + h3);
    Split64(high * 64 + (l2 * 4 + h3), l3);
  }

  /** The shifts and masks of the encoder are the 6-bit groups of the standard. */
  lemma FirstTwoSixths(c1: byte, c2: byte, c3: byte)
    ensures Sixth(Group24(c1, c2, c3), 0) == c1 / 4 && Sixth(Group24(c1, c2, c3), 1) == c1 % 4 * 16 + c2 / 16
  {
    var h1, l1, h2, l2 := c1 / 4, c1 % 4, c2 / 16, c2 % 16;
    FirstSixths(h1, l1, h2, l2 * 256 + c3);
    assert Group24(c1, c2, c3) == h1 * 262144 + l1 * 65536 + h2 * 4096 + (l2 * 256 + c3);
  }

  lemma LastTwoSixths(c1: byte, c2: byte, c3: byte)
    ensures Sixth(Group24(c1, c2, c3), 2) == c2 % 16 * 4 + c3 / 64 && Sixth(Group24(c1, c2, c3), 3) == c3 % 64
  {
    var h2, l2, h3, l3 := c2 / 16, c2 % 16, c3 / 64, c3 % 64;
    LastSixths(c1 * 16 + h2, l2, h3, l3);
    assert Group24(c1, c2, c3) == (c1 * 16 + h2) * 4096 + l2 * 256 + h3 * 64 + l3;
  }

  lemma ShiftsAreSixths(c1: byte, c2: byte, c3: byte)
    ensures var v := Group24(c1, c2, c3);
            && c1 / 4 % 64 == Sixth(v, 0)
            && (c1 % 4 * 16 + c2 / 16) % 64 == Sixth(v, 1)
            && (c2 % 16 * 4 + c3 / 64) % 64 == Sixth(v, 2)
            && c3 % 64 == Sixth(v, 3)
  {
    hide Sixth, Group24;
    FirstTwoSixths(c1, c2, c3);
    LastTwoSixths(c1, c2, c3);
  }

  /** What the encoder writes for three octets; the source's shifts and masks. */
  function FourSymbols(c1: byte, c2: byte, c3: byte): (r: seq<byte>)
    ensures |r| == 4
  {
    [EncMap(c1 / 4 % 64), EncMap((c1 % 4 * 16 + c2 / 16) % 64), EncMap((c2 % 16 * 4 + c3 / 64) % 64), EncMap(c3 % 64)]
  }

  lemma FourSymbolsAre(c1: byte, c2: byte, c3: byte)
    ensures var v := Group24(c1, c2, c3);
            FourSymbols(c1, c2, c3) == [Symbol(v, 0), Symbol(v, 1), Symbol(v, 2), Symbol(v, 3)]
  {
    hide Sixth, Group24, EncMap, CharOf;
    var v := Group24(c1, c2, c3);
    ShiftsAreSixths(c1, c2, c3);
    EncMapIs(Sixth(v, 0));
    EncMapIs(Sixth(v, 1));
    EncMapIs(Sixth(v, 2));
    EncMapIs(Sixth(v, 3));
  }

  method WriteSymbols(dst: array<byte>, p: nat, c1: byte, c2: byte, c3: byte) returns (p': nat)
    requires p + 4 <= dst.Length
    modifies dst
    ensures p' == p + 4 && dst[..p'] == old(dst[..p]) + FourSymbols(c1, c2, c3)
    ensures forall k :: p' <= k < dst.Length ==> dst[k] == old(dst[k])
  {
    dst[p] := EncMap(c1 / 4 % 64);
    dst[p + 1] := EncMap((c1 % 4 * 16 + c2 / 16) % 64);
    dst[p + 2] := EncMap((c2 % 16 * 4 + c3 / 64) % 64);
    dst[p + 3] := EncMap(c3 % 64);
    p' := p + 4;
  }

  lemma Thirds(n: nat)
    ensures n / 3 + (if n % 3 != 0 then 1 else 0) == (n + 2) / 3
    ensures n / 3 * 3 <= n < n / 3 * 3 + 3 && (n / 3 * 3 == n <==> n % 3 == 0)
  {}

  lemma EncodedStep(s: seq<byte>, i: nat)
    requires i + 3 <= |s|
    ensures Encoded(s[i..]) == FourSymbols(s[i], s[i + 1], s[i + 2]) + Encoded(s[i + 3..])
  {
    hide FourSymbols, Symbol, Group24;
    FourSymbolsAre(s[i], s[i + 1], s[i + 2]);
    assert s[i..][3..] == s[i + 3..];
  }

  lemma NothingEncoded()
    ensures Encoded([]) == []
  {}

  /** One or two octets at the end. */
  method LastSymbols(dst: array<byte>, p: nat, src: seq<byte>) returns (p': nat)
    requires 1 <= |src| <= 2 && p + 4 <= dst.Length
    modifies dst
    ensures p' == p + 4 && dst[..p'] == old(dst[..p]) + Encoded(src)
    ensures forall k :: p' <= k < dst.Length ==> dst[k] == old(dst[k])
  {
    hide Symbol, Sixth, Group24, EncMap, CharOf;
    var c1 := src[0];
    var c2 := if 1 < |src| then src[1] else 0;
    FourSymbolsAre(c1, c2, 0);
    dst[p] := EncMap(c1 / 4 % 64);
    dst[p + 1] := EncMap((c1 % 4 * 16 + c2 / 16) % 64);
    if 1 < |src| {
      dst[p + 2] := EncMap(c2 % 16 * 4 % 64);
    } else {
      dst[p + 2] := PAD;
    }
    dst[p + 3] := PAD;
    p' := p + 4;
  }

  /** The loop of Encode: four symbols for every whole group of three octets. */
  method WriteGroups(dst: array<byte>, src: seq<byte>) returns (p: nat)
    requires |src| / 3 * 4 <= dst.Length
    modifies dst
    ensures p == |src| / 3 * 4 && dst[..p] + Encoded(src[|src| / 3 * 3..]) == Encoded(src)
    ensures forall k :: p <= k < dst.Length ==> dst[k] == old(dst[k])
  {
    hide FourSymbols, Encoded;
    var n: nat := |src| / 3 * 3;
    var i: nat := 0;
    ghost var groups: nat := 0;
    p := 0;
    assert src[0..] == src && dst[..0] == [];
    while i < n
      invariant i == 3 * groups <= n && p == 4 * groups
      invariant dst[..p] + Encoded(src[i..]) == Encoded(src)
      invariant forall k :: p <= k < dst.Length ==> dst[k] == old(dst[k])
    {
      EncodedStep(src, i);
      p := WriteSymbols(dst, p, src[i], src[i + 1], src[i + 2]);
      i := i + 3;
      groups := groups + 1;
    }
  }

  /** Encodes as the standard does, and ends the text with a zero; asks for the room it needs when there is
      not enough. */
  method Encode(dst: array?<byte>, dlen: nat, src: seq<byte>) returns (rc: int, olen: nat)
    requires dst != null ==> dlen <= dst.Length
    modifies dst
    ensures src == [] ==> rc == 0 && olen == 0
    ensures src != [] ==>
              var n := (|src| + 2) / 3;
              if n > (BASE64_SIZE_T_MAX - 1) / 4 then rc == -1 && olen == BASE64_SIZE_T_MAX
              else if dlen < 4 * n + 1 || dst == null then rc == -1 && olen == 4 * n + 1
              else
                && rc == 0 && olen == |Encoded(src)| == 4 * n && dst[..olen + 1] == Encoded(src) + [0]
                && forall k :: olen < k < dst.Length ==> dst[k] == old(dst[k])
    ensures src == [] || rc == -1 ==> dst != null ==> dst[..] == old(dst[..])
  {
    hide FourSymbols, Encoded;
    if src == [] {
      return 0, 0;
    }
    var n: nat := |src| / 3 + if |src| % 3 != 0 then 1 else 0;
    Thirds(|src|);
    if n > (BASE64_SIZE_T_MAX - 1) / 4 {
      return -1, BASE64_SIZE_T_MAX;
    }
    n := n * 4;
    if dlen < n + 1 || dst == null {
      return -1, n + 1;
    }
    EncodedLength(src);
    var p := WriteGroups(dst, src);
    var i: nat := |src| / 3 * 3;
    NothingEncoded();
    if i < |src| {
      p := LastSymbols(dst, p, src[i..]);
    }
    dst[p] := 0;
    return 0, p;
  }

  /** Any octets encoded, broken into lines anyhow, decode to themselves, wherever they fit. */
  lemma DecodesWhatWasEncoded(octets: seq<byte>, text: seq<byte>, dlen: nat)
    requires octets != [] && |octets| <= dlen && Strip(text) == Some(Encoded(octets))
    ensures Accepts(false, dlen, text) && Decoded(Strip(text).value, 0) == octets
    ensures Strip(Encoded(octets)) == Some(Encoded(octets))
  {
    hide Strip, Encoded, Decoded, Fine;
    RoundTrip(octets);
    EncodedLength(octets);
    DecodedLength(Encoded(octets));
    SymbolsAreNotBlank(Encoded(octets));
    StripsToItself(Encoded(octets));
  }
}

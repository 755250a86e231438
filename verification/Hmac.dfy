/** HMAC-SHA-1 as section 2 of RFC 2104 defines it, for keys of at most one block. */
module HmacSpec {
  import opened BlockHash
  import Sha1Spec

  /** A key brought to block length by appending zeros. */
  function BlockKey(key: seq<bv8>): Block
    requires |key| <= 64
  {
    key + Zeros(64 - |key|)
  }

  function XorWith(s: Block, pad: bv8): Block {
    seq(64, i requires 0 <= i < 64 => s[i] ^ pad)
  }

  ghost function Hmac(key: seq<bv8>, text: seq<bv8>): (s: seq<bv8>)
    requires |key| <= 64 && |text| + 64 < TWO_61
    ensures |s| == 20
  {
    var k := BlockKey(key);
    Sha1Spec.Digest(XorWith(k, 0x5c) + Sha1Spec.Digest(XorWith(k, 0x36) + text))
  }
}

module Hmac {
  import opened BlockHash
  import opened Hex
  import Sha1Spec
  import Sha1
  import opened HmacSpec

  method LoadKey(pad: array<bv8>, key: seq<bv8>)
    requires pad.Length == 64 && |key| <= 64 && pad[..] == Zeros(64)
    modifies pad
    ensures pad[..] == BlockKey(key)
  {
    CopyInto(pad, 0, key);
    assert pad[..] == pad[..|key|] + pad[|key|..];
  }

  /** One pass: a fresh context takes the pad block, then the text. */
  method HashPair(pad: seq<bv8>, text: seq<bv8>, out: array<bv8>)
    requires |pad| == 64 && |text| < 0x8000_0000 && out.Length == 20
    modifies out
    ensures out[..] == Sha1Spec.Digest(pad + text)
  {
    hide Sha1Spec.Compress, Sha1Spec.RegsBytes, Sha1Spec.Digest, Sha1.Context.Valid, Sha1.FinishedText, Fold;
    var context := new Sha1.Context();
    context.Starts();
    context.Update(pad);
    context.Update(text);
    assert [] + pad + text == pad + text;
    Sha1.FinishedTextExact(pad + text, 0);
    context.Finish(out);
    assert out[20..] == [];
  }

  /** XORs the whole pads in place. */
  method XorPads(k_ipad: array<bv8>, k_opad: array<bv8>)
    requires k_ipad.Length == 64 && k_opad.Length == 64 && k_ipad != k_opad
    modifies k_ipad, k_opad
    ensures k_ipad[..] == XorWith(old(k_ipad[..]), 0x36)
    ensures k_opad[..] == XorWith(old(k_opad[..]), 0x5c)
  {
    for i := 0 to 64
      invariant forall j :: 0 <= j < i ==> k_ipad[j] == old(k_ipad[j]) ^ 0x36 && k_opad[j] == old(k_opad[j]) ^ 0x5c
      invariant forall j :: i <= j < 64 ==> k_ipad[j] == old(k_ipad[j]) && k_opad[j] == old(k_opad[j])
    {
      k_ipad[i] := k_ipad[i] ^ 0x36;
      k_opad[i] := k_opad[i] ^ 0x5c;
    }
  }

  /** The digest text of `msg` under `key`, or -1 and nothing written for a key longer than a block.
      The message length is an `int` in the source. */
  method HmacSha1(msg: seq<bv8>, key: seq<bv8>, digest: array<char>) returns (rc: int)
    requires digest.Length >= 40 && |msg| < 0x8000_0000
    modifies digest
    ensures rc == if |key| > 64 then -1 else 0
    ensures |key| > 64 ==> digest[..] == old(digest[..])
    ensures |key| <= 64 ==> digest[..] == HexOf(Hmac(key, msg)) + old(digest[40..])
  {
    hide Sha1Spec.Digest;
    if |key| > 64 {
      return -1;
    }
    var k_ipad := new bv8[64](_ => 0);
    var k_opad := new bv8[64](_ => 0);
    var out := new bv8[20];
    LoadKey(k_ipad, key);
    LoadKey(k_opad, key);
    XorPads(k_ipad, k_opad);
    HashPair(k_ipad[..], msg, out);
    HashPair(k_opad[..], out[..], out);

    var hex := ToHex(out[..]);
    forall i | 0 <= i < 40 {
      digest[i] := hex[i];
    }
    assert digest[..] == digest[..40] + digest[40..];
    return 0;
  }
}

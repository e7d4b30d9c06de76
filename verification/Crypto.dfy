/**
 Bytes, and the cryptographic primitives as parameters about which only their
 shapes are known.
 */
module Crypto {
  type Byte = bv8
  type Bytes = seq<Byte>

  /** The byte at each position of the keystream of a cipher in counter mode. */
  type Keystream = nat -> Byte

  /** `accepts` says whether the cipher takes a key and an initialization vector. */
  datatype Primitives = Primitives(
    accepts: (Bytes, Bytes) -> bool, keystream: (Bytes, Bytes) -> Keystream,
    hmac: (Bytes, Bytes) -> Bytes,
    pbkdf2: (string, Bytes, bv32) -> Bytes, hkdf: Bytes -> Bytes)

  /** The data combined with the keystream from position start on. */
  function Mask(ks: Keystream, start: nat, data: Bytes): Bytes {
    seq(|data|, i requires 0 <= i < |data| => data[i] ^ ks(start + i))
  }

  lemma MaskTwice(ks: Keystream, start: nat, data: Bytes)
    ensures Mask(ks, start, Mask(ks, start, data)) == data
  {
  }

  lemma MaskConcat(ks: Keystream, start: nat, a: Bytes, b: Bytes)
    ensures Mask(ks, start, a + b) == Mask(ks, start, a) + Mask(ks, start + |a|, b)
  {
  }

  lemma MaskSlice(ks: Keystream, data: Bytes, from: nat, to: nat)
    requires from <= to <= |data|
    ensures Mask(ks, 0, data)[from..to] == Mask(ks, from, data[from..to])
  {
  }

  /** A cipher in counter mode: its state is the position in its keystream. */
  class Ctr {
    const ks: Keystream
    var pos: nat

    constructor (ks: Keystream)
      ensures this.ks == ks && pos == 0
    {
      this.ks := ks;
      pos := 0;
    }

    method ApplyKeystream(buf: array<Byte>)
      modifies this, buf
      ensures buf[..] == Mask(ks, old(pos), old(buf[..]))
      ensures pos == old(pos) + buf.Length
    {
      for i := 0 to buf.Length
        invariant pos == old(pos)
        invariant forall j :: 0 <= j < i ==> buf[j] == old(buf[j]) ^ ks(old(pos) + j)
        invariant forall j :: i <= j < buf.Length ==> buf[j] == old(buf[j])
      {
        buf[i] := buf[i] ^ ks(pos + i);
      }
      pos := pos + buf.Length;
    }
  }

  /** A message authentication code over what was absorbed since it was last reset. */
  class Mac {
    const crypto: Primitives
    const key: Bytes
    var absorbed: Bytes

    constructor (crypto: Primitives, key: Bytes)
      ensures this.crypto == crypto && this.key == key && absorbed == []
    {
      this.crypto := crypto;
      this.key := key;
      absorbed := [];
    }

    method Update(data: Bytes)
      modifies this
      ensures absorbed == old(absorbed) + data
    {
      absorbed := absorbed + data;
    }

    method FinalizeReset() returns (tag: Bytes)
      modifies this
      ensures tag == crypto.hmac(key, old(absorbed)) && absorbed == []
    {
      tag := crypto.hmac(key, absorbed);
      absorbed := [];
    }

    method Verify(tag: Bytes) returns (ok: bool)
      ensures ok <==> tag == crypto.hmac(key, absorbed)
    {
      ok := tag == crypto.hmac(key, absorbed);
    }
  }
}

/**
 * fnv1hash of misc.c: the 32-bit FNV-1 hash. Each byte first multiplies
 * the running hash by the FNV prime (wrapping at 32 bits) and is then
 * XORed in, the FNV-1 order (FNV-1a would XOR first).
 */
module Fnv {
  const FNV_OFFSET: bv32 := 0x811c_9dc5
  const FNV_PRIME: bv32 := 0x0100_0193

  /** One round: multiply modulo 2^32, then XOR the byte. */
  function Step(hash: bv32, b: bv8): bv32
  {
    (hash * FNV_PRIME) ^ (b as bv32)
  }

  /** The hash after feeding the bytes of `s`, in order, from `hash`. */
  function Fold(hash: bv32, s: seq<bv8>): bv32
  {
    if s == [] then hash else Step(Fold(hash, s[..|s| - 1]), s[|s| - 1])
  }

  /** fnv1hash(s, length): the first `length` bytes; a length of 0 or less hashes nothing. */
  function Hash(s: seq<bv8>, length: int): bv32
    requires length <= |s|
  {
    if length <= 0 then FNV_OFFSET else Fold(FNV_OFFSET, s[..length])
  }

  /** fnv1hash, with the loop counting `length` down and walking `s`. */
  method Fnv1Hash(s: seq<bv8>, length: int) returns (hash: bv32)
    requires length <= |s|
    ensures hash == Hash(s, length)
  {
    hash := FNV_OFFSET;
    var remaining := length;
    var p := 0;
    while remaining > 0
      invariant 0 <= p <= |s|
      invariant length > 0 ==> 0 <= remaining && p + remaining == length
      invariant length <= 0 ==> p == 0 && remaining == length
      invariant hash == Hash(s, p)
      decreases remaining
    {
      hash := Round(hash, s[p]);
      HashExtend(s, p);
      p := p + 1;
      remaining := remaining - 1;
    }
    assert length > 0 ==> p == length;
    assert length <= 0 ==> hash == FNV_OFFSET;
  }

  /** The body of fnv1hash's loop: `hash *= 0x01000193; hash ^= *s`. */
  method Round(hash: bv32, b: bv8) returns (next: bv32)
    ensures next == Step(hash, b)
  {
    next := hash * FNV_PRIME;
    next := next ^ (b as bv32);
  }

  /** Hashing nothing gives the offset basis. */
  lemma HashEmpty(s: seq<bv8>, length: int)
    requires length <= 0 && length <= |s|
    ensures Hash(s, length) == 0x811c_9dc5
    ensures Fold(FNV_OFFSET, []) == 0x811c_9dc5
  {
  }

  /** Hashing `s ++ t` continues the fold from the hash of `s`. */
  lemma {:induction false} FoldAppend(hash: bv32, s: seq<bv8>, t: seq<bv8>)
    ensures Fold(hash, s + t) == Fold(Fold(hash, s), t)
  {
    if t == [] {
      assert s + t == s;
    } else {
      var t' := t[..|t| - 1];
      assert (s + t)[..|s + t| - 1] == s + t';
      FoldAppend(hash, s, t');
    }
  }

  /** fnv1hash reads only the first `length` bytes of its buffer. */
  lemma HashPrefixOnly(s: seq<bv8>, u: seq<bv8>, length: int)
    requires length <= |s| && length <= |u|
    requires length > 0 ==> s[..length] == u[..length]
    ensures Hash(s, length) == Hash(u, length)
  {
  }

  /** Feeding one more byte is one FNV-1 round on the previous hash. */
  lemma HashExtend(s: seq<bv8>, n: nat)
    requires n < |s|
    ensures Hash(s, n + 1) == Step(Hash(s, n), s[n])
  {
    assert s[..n + 1][..n] == s[..n];
    assert Fold(FNV_OFFSET, s[..n + 1]) == Step(Fold(FNV_OFFSET, s[..n]), s[n]);
    if n == 0 {
      assert s[..0] == [];
    }
  }

  /**
   * The hash of the single byte 'a' (0x61) is 0x050c5d7e, the FNV-1 value;
   * the XOR-first order of FNV-1a would give 0xe40c292c.
   */
  lemma SingleByteExample()
    ensures Hash([0x61], 1) == 0x050c_5d7e
    ensures ((FNV_OFFSET ^ 0x61) * FNV_PRIME) == 0xe40c_292c
  {
    assert [0x61][..1] == [0x61];
    assert [0x61 as bv8][..0] == [];
  }
}

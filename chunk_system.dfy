/**
 * Chunk keys: the (x, z) coordinate of a chunk column, its equality and the
 * hash combiner that lets it key the world's chunk map.
 */
module ChunkSystem {
  import opened BitOps

  /** The key of one chunk column, in chunk units (one unit = 16 blocks). */
  datatype ChunkCoord = ChunkCoord(x: int, z: int)

  const SizeTModulus: nat := 0x1_0000_0000_0000_0000

  /** `size_t` on the platforms the program targets: 64 bits, arithmetic wraps. */
  type SizeT = n: nat | n < SizeTModulus

  /** `operator==`: two keys are equal exactly when they are the same key. */
  function Equal(a: ChunkCoord, b: ChunkCoord): (r: bool)
    ensures r <==> a == b
  {
    a.x == b.x && a.z == b.z
  }

  /** `operator==` is an equivalence relation, as an unordered_map key needs. */
  lemma EqualIsEquivalence(a: ChunkCoord, b: ChunkCoord, c: ChunkCoord)
    ensures Equal(a, a)
    ensures Equal(a, b) ==> Equal(b, a)
    ensures Equal(a, b) && Equal(b, c) ==> Equal(a, c)
  {
  }

  /** `h2 + 0x9e3779b9 + (h2 << 6) + (h2 >> 2)`, every step wrapping modulo 2^64. */
  function Mix(h2: SizeT): (m: SizeT)
    ensures m == (h2 + 0x9e3779b9 + h2 * 64 + h2 / 4) % SizeTModulus
  {
    WrapEarly(h2 + 0x9e3779b9, h2 * 64, h2 / 4);
    var shl := (h2 * 64) % SizeTModulus;
    var shr := h2 / 4;
    ((((h2 + 0x9e3779b9) % SizeTModulus) + shl) % SizeTModulus + shr) % SizeTModulus
  }

  /** Wrapping after each addition is wrapping once at the end. */
  lemma WrapEarly(a: nat, b: nat, c: nat)
    ensures (((a % SizeTModulus) + b % SizeTModulus) % SizeTModulus + c) % SizeTModulus == (a + b + c) % SizeTModulus
  {
    var M := SizeTModulus;
    var q1, q2 := a / M, b / M;
    assert a == q1 * M + a % M && b == q2 * M + b % M;
    var s1 := a % M + b % M;
    assert (s1 + c) % M == (s1 + c + (q1 + q2) * M) % M by {
      AddMultipleOfModulus(s1 + c, q1 + q2);
    }
    var q3 := s1 / M;
    assert s1 == q3 * M + s1 % M;
    assert (s1 % M + c) % M == (s1 % M + c + q3 * M) % M by {
      AddMultipleOfModulus(s1 % M + c, q3);
    }
  }

  lemma AddMultipleOfModulus(x: nat, k: nat)
    ensures (x + k * SizeTModulus) % SizeTModulus == x % SizeTModulus
  {
  }

  /**
   * `h1 ^ Mix(h2)`, the combiner of the two component hashes. The hash of the
   * x component can be recovered from the result and the hash of the z component.
   * Since XOR with a fixed word is injective (`XorInjective`), that ensures
   * leaves only one possible result.
   */
  function Combine(h1: SizeT, h2: SizeT): (h: SizeT)
    ensures Xor(h, Mix(h2)) == h1
  {
    Pow2Of64();
    XorBound(h1, Mix(h2), 64);
    XorSelfInverse(h1, Mix(h2));
    Xor(h1, Mix(h2))
  }

  /**
   * `std::hash<ChunkCoord>`: `hashInt` stands for `std::hash<int>`, library code
   * whose values the model leaves open.
   */
  function Hash(hashInt: int -> SizeT, k: ChunkCoord): (h: SizeT)
    ensures Xor(h, Mix(hashInt(k.z))) == hashInt(k.x)
  {
    Combine(hashInt(k.x), hashInt(k.z))
  }

  /** Keys that `operator==` calls equal hash equally, whatever `std::hash<int>` does. */
  lemma HashRespectsEqual(hashInt: int -> SizeT, a: ChunkCoord, b: ChunkCoord)
    requires Equal(a, b)
    ensures Hash(hashInt, a) == Hash(hashInt, b)
  {
  }

  /**
   * Two keys in the same row of chunks (same z) whose x components hash
   * differently never collide.
   */
  lemma HashSeparatesRow(hashInt: int -> SizeT, a: ChunkCoord, b: ChunkCoord)
    requires a.z == b.z && hashInt(a.x) != hashInt(b.x)
    ensures Hash(hashInt, a) != Hash(hashInt, b)
  {
    var ha, hb := Hash(hashInt, a), Hash(hashInt, b);
    assert Xor(ha, Mix(hashInt(a.z))) == hashInt(a.x);
    assert Xor(hb, Mix(hashInt(a.z))) == hashInt(b.x);
  }
}

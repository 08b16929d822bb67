// The 64-bit FNV-1a hash that names cache entries and fingerprints (workspace.rs), on unsigned
// integers with the wrap-around written out.
module ContentHash {
  import CacheFormat

  const TWO_TO_64: nat := 0x1_0000_0000_0000_0000
  const PRIME: nat := 0x0000_0100_0000_01b3
  const OFFSET: Hash := 0xcbf2_9ce4_8422_2325

  // The inverse of the prime modulo 2^64: PRIME * INVERSE == 1 + QUOTIENT * 2^64.
  const INVERSE: nat := 0xce96_5057_aff6_957b
  const QUOTIENT: nat := 0xce_9650_590f

  type Byte = CacheFormat.Byte
  newtype Hash = x: int | 0 <= x < 0x1_0000_0000_0000_0000

  // Exclusive or of the low `bits` bits.
  function Xor(a: nat, b: nat, bits: nat): nat
    decreases bits
  {
    if bits == 0 then 0 else (a + b) % 2 + 2 * Xor(a / 2, b / 2, bits - 1)
  }

  function Pow2(n: nat): nat { if n == 0 then 1 else 2 * Pow2(n - 1) }

  lemma {:induction false} XorFits(a: nat, b: nat, bits: nat)
    ensures Xor(a, b, bits) < Pow2(bits)
  {
    if bits > 0 {
      XorFits(a / 2, b / 2, bits - 1);
    }
  }

  // Exclusive or with the same bits tells numbers of that many bits apart.
  lemma {:induction false} XorIsInjective(a: nat, a': nat, b: nat, bits: nat)
    requires a < Pow2(bits) && a' < Pow2(bits)
    ensures Xor(a, b, bits) == Xor(a', b, bits) ==> a == a'
  {
    if bits > 0 {
      XorIsInjective(a / 2, a' / 2, b / 2, bits - 1);
    }
  }

  lemma {:induction false} XorCommutes(a: nat, b: nat, bits: nat)
    ensures Xor(a, b, bits) == Xor(b, a, bits)
  {
    if bits > 0 {
      XorCommutes(a / 2, b / 2, bits - 1);
    }
  }

  // The bit of weight 2^i.
  function Bit(a: nat, i: nat): nat { if i == 0 then a % 2 else Bit(a / 2, i - 1) }

  lemma XorHalves(a: nat, b: nat, bits: nat)
    requires bits > 0
    ensures Xor(a, b, bits) % 2 == (a + b) % 2 && Xor(a, b, bits) / 2 == Xor(a / 2, b / 2, bits - 1)
  {
  }

  lemma LowBitsDiffer(a: nat, b: nat)
    ensures (a + b) % 2 == if a % 2 != b % 2 then 1 else 0
  {
  }

  // Each bit of an exclusive or says whether the two bits differ.
  lemma {:induction false} XorBits(a: nat, b: nat, bits: nat, i: nat)
    requires i < bits
    ensures Bit(Xor(a, b, bits), i) == if Bit(a, i) != Bit(b, i) then 1 else 0
  {
    XorHalves(a, b, bits);
    LowBitsDiffer(a, b);
    if i > 0 {
      XorBits(a / 2, b / 2, bits - 1, i - 1);
    }
  }

  lemma EightBits()
    ensures Pow2(8) == 0x100
  {
    assert Pow2(4) == 16;
  }

  function Low(hash: Hash): nat { hash as nat % 0x100 }

  function High(hash: Hash): (high: nat)
    ensures hash as nat == high * 0x100 + Low(hash) && high < 0x100_0000_0000_0000
  {
    hash as nat / 0x100
  }

  function XorLow(hash: Hash, b: Byte): (r: nat)
    ensures r < 0x100
  {
    EightBits();
    XorFits(Low(hash), b as nat, 8);
    Xor(Low(hash), b as nat, 8)
  }

  // `hash ^= b as u64`: a byte only reaches the low eight bits.
  function XorByte(hash: Hash, b: Byte): Hash { (High(hash) * 0x100 + XorLow(hash, b)) as Hash }

  // `wrapping_mul`.
  function MultiplyByPrime(hash: Hash): Hash { (hash as nat * PRIME % TWO_TO_64) as Hash }

  function Step(hash: Hash, b: Byte): Hash { MultiplyByPrime(XorByte(hash, b)) }

  function Fnv1a(bytes: seq<Byte>, hash: Hash): Hash
    decreases |bytes|
  {
    if bytes == [] then hash else Fnv1a(bytes[1..], Step(hash, bytes[0]))
  }

  function ContentHash(text: seq<Byte>): Hash { Fnv1a(text, OFFSET) }

  method ComputeFnv1a(bytes: seq<Byte>, seed: Hash) returns (hash: Hash)
    ensures hash == Fnv1a(bytes, seed)
  {
    hash := seed;
    for i := 0 to |bytes|
      invariant Fnv1a(bytes, seed) == Fnv1a(bytes[i..], hash)
    {
      hash := XorByte(hash, bytes[i]);
      hash := MultiplyByPrime(hash);
    }
  }

  lemma XorLowIsInjective(h: Hash, h': Hash, b: Byte, b': Byte)
    ensures XorLow(h, b) == XorLow(h', b) ==> Low(h) == Low(h')
    ensures XorLow(h, b) == XorLow(h, b') ==> b == b'
  {
    EightBits();
    XorIsInjective(Low(h), Low(h'), b as nat, 8);
    XorCommutes(Low(h), b as nat, 8);
    XorCommutes(Low(h), b' as nat, 8);
    XorIsInjective(b as nat, b' as nat, Low(h), 8);
  }

  lemma SameParts(q: nat, q': nat, r: nat, r': nat)
    requires r < 0x100 && r' < 0x100 && q * 0x100 + r == q' * 0x100 + r'
    ensures q == q' && r == r'
  {
  }

  lemma XorByteIsInjective(h: Hash, h': Hash, b: Byte, b': Byte)
    ensures XorByte(h, b) == XorByte(h', b) ==> h == h'
    ensures XorByte(h, b) == XorByte(h, b') ==> b == b'
  {
    XorLowIsInjective(h, h', b, b');
    if XorByte(h, b) == XorByte(h', b) {
      SameParts(High(h), High(h'), XorLow(h, b), XorLow(h', b));
    }
    if XorByte(h, b) == XorByte(h, b') {
      SameParts(High(h), High(h), XorLow(h, b), XorLow(h, b'));
    }
  }

  // Multiplying by the odd prime can be undone modulo 2^64.
  lemma MultiplyIsInjective(x: Hash, y: Hash)
    ensures MultiplyByPrime(x) == MultiplyByPrime(y) ==> x == y
  {
    if MultiplyByPrime(x) == MultiplyByPrime(y) {
      var d := x as int - y as int;
      var k := x as int * PRIME / TWO_TO_64 - y as int * PRIME / TWO_TO_64;
      assert d * PRIME == k * TWO_TO_64;
      assert PRIME * INVERSE == 1 + QUOTIENT * TWO_TO_64;
      var t := k * INVERSE - d * QUOTIENT;
      assert d == t * TWO_TO_64;
      assert 0 - TWO_TO_64 < d < TWO_TO_64;
      assert t == 0;
    }
  }

  lemma {:induction false} FnvIsInjectiveInState(bytes: seq<Byte>, h: Hash, h': Hash)
    requires h != h'
    ensures Fnv1a(bytes, h) != Fnv1a(bytes, h')
    decreases |bytes|
  {
    if bytes != [] {
      XorByteIsInjective(h, h', bytes[0], bytes[0]);
      MultiplyIsInjective(XorByte(h, bytes[0]), XorByte(h', bytes[0]));
      FnvIsInjectiveInState(bytes[1..], Step(h, bytes[0]), Step(h', bytes[0]));
    }
  }

  // Hashing a concatenation goes on from the hash of its first part. The fingerprints are built
  // this way, field after field.
  lemma {:induction false} FnvResumes(a: seq<Byte>, b: seq<Byte>, h: Hash)
    ensures Fnv1a(a + b, h) == Fnv1a(b, Fnv1a(a, h))
    decreases |a|
  {
    if a == [] {
      assert a + b == b;
    } else {
      assert (a + b)[1..] == a[1..] + b;
      FnvResumes(a[1..], b, Step(h, a[0]));
    }
  }

  // Two texts of one length that differ in exactly one byte never share a content hash.
  lemma OneByteChangesHash(before: seq<Byte>, b: Byte, b': Byte, after: seq<Byte>)
    requires b != b'
    ensures ContentHash(before + [b] + after) != ContentHash(before + [b'] + after)
  {
    var h := Fnv1a(before, OFFSET);
    assert before + [b] + after == before + ([b] + after) && before + [b'] + after == before + ([b'] + after);
    FnvResumes(before, [b] + after, OFFSET);
    FnvResumes(before, [b'] + after, OFFSET);
    assert ([b] + after)[1..] == after && ([b'] + after)[1..] == after;
    XorByteIsInjective(h, h, b, b');
    MultiplyIsInjective(XorByte(h, b), XorByte(h, b'));
    FnvIsInjectiveInState(after, Step(h, b), Step(h, b'));
  }

  // The hash of a byte is the offset basis with that byte's bits flipped, times the prime: first the
  // exclusive or, then the product. With the published values for no byte and for the letter a.
  lemma KnownHashes()
    ensures ContentHash([]) == 0xcbf2_9ce4_8422_2325
    ensures ContentHash([0x61]) == 0xaf63_dc4c_8601_ec8c
  {
    assert Xor(0x2, 0x6, 4) == 4;
    assert Xor(0x25, 0x61, 8) == 0x44;
    var flipped: Hash := 0xcbf2_9ce4_8422_2344;
    assert XorByte(OFFSET, 0x61) == flipped;
    assert MultiplyByPrime(flipped) == 0xaf63_dc4c_8601_ec8c;
    assert [0x61 as Byte][1..] == [];
  }
}

/** `Hash32` of `utils.cc`: a Murmur-style hash whose every step is a bijection on 32 bits. */
module Hash {
  type Bytes = seq<bv8>

  /** `DecodeFixed32`: four bytes, the lowest first. */
  function DecodeFixed32(b: Bytes): bv32
    requires |b| >= 4
  {
    Word(b[0], b[1], b[2], b[3])
  }

  function Word(b0: bv8, b1: bv8, b2: bv8, b3: bv8): bv32 {
    (b0 as bv32) | ((b1 as bv32) << 8) | ((b2 as bv32) << 16) | ((b3 as bv32) << 24)
  }

  function EncodeFixed32(k: bv32): (b: Bytes)
    ensures |b| == 4
  {
    [(k & 0xff) as bv8, ((k >> 8) & 0xff) as bv8, ((k >> 16) & 0xff) as bv8, (k >> 24) as bv8]
  }

  // ---- The mixing steps and their inverses.

  function Xor(x: bv32, y: bv32): bv32 {
    x ^ y
  }

  lemma XorInjective(a: bv32, x: bv32, y: bv32)
    ensures Xor(a, x) == Xor(a, y) ==> x == y
    ensures Xor(x, a) == Xor(y, a) ==> x == y
  {
    XorCancels(a, x);
    XorCancels(a, y);
    hide Xor;
  }

  lemma XorCancels(a: bv32, x: bv32)
    ensures Xor(a, Xor(a, x)) == x && Xor(Xor(x, a), a) == x && Xor(a, Xor(x, a)) == x
  {
    assert a ^ (a ^ x) == x && (x ^ a) ^ a == x && a ^ (x ^ a) == x;
    assert Xor(a, Xor(a, x)) == Xor(a, a ^ x);
    assert Xor(Xor(x, a), a) == Xor(x ^ a, a);
    assert Xor(a, Xor(x, a)) == Xor(a, x ^ a);
  }

  /** Multiplication by the mixing constant `m`, which is odd. */
  function Times(x: bv32): bv32 {
    x * 0x5bd1e995
  }

  function Untimes(x: bv32): bv32 {
    x * 0xe59b19bd
  }

  lemma TimesInverse(x: bv32)
    ensures Untimes(Times(x)) == x && Times(Untimes(x)) == x
  {
    ConstantsCancel(x);
    assert Times(x) == x * 0x5bd1e995 && Untimes(x) == x * 0xe59b19bd;
    assert Untimes(Times(x)) == Untimes(x * 0x5bd1e995);
    assert Times(Untimes(x)) == Times(x * 0xe59b19bd);
  }

  /** The two constants are inverse to each other modulo 2^32. */
  lemma ConstantsCancel(x: bv32)
    ensures (x * 0x5bd1e995) * 0xe59b19bd == x
    ensures (x * 0xe59b19bd) * 0x5bd1e995 == x
  {
  }

  function Shifted24(x: bv32): bv32 {
    x ^ (x >> 24)
  }

  function Shifted15(x: bv32): bv32 {
    x ^ (x >> 15)
  }

  function Shifted13(x: bv32): bv32 {
    x ^ (x >> 13)
  }

  function Unshifted15(x: bv32): bv32 {
    x ^ (x >> 15) ^ (x >> 30)
  }

  lemma Undo15(x: bv32)
    ensures Unshifted15(Shifted15(x)) == x && Shifted15(Unshifted15(x)) == x
  {
    Undo15Bits(x);
    assert Shifted15(x) == x ^ (x >> 15) && Unshifted15(x) == x ^ (x >> 15) ^ (x >> 30);
    assert Unshifted15(Shifted15(x)) == Unshifted15(x ^ (x >> 15));
    assert Shifted15(Unshifted15(x)) == Shifted15(x ^ (x >> 15) ^ (x >> 30));
  }

  lemma Undo15Bits(x: bv32)
    ensures (x ^ (x >> 15)) ^ ((x ^ (x >> 15)) >> 15) ^ ((x ^ (x >> 15)) >> 30) == x
    ensures (x ^ (x >> 15) ^ (x >> 30)) ^ ((x ^ (x >> 15) ^ (x >> 30)) >> 15) == x
  {
  }

  function Unshifted13(x: bv32): bv32 {
    x ^ (x >> 13) ^ (x >> 26)
  }

  lemma Undo13(x: bv32)
    ensures Unshifted13(Shifted13(x)) == x && Shifted13(Unshifted13(x)) == x
  {
    Undo13Bits(x);
    assert Shifted13(x) == x ^ (x >> 13) && Unshifted13(x) == x ^ (x >> 13) ^ (x >> 26);
    assert Unshifted13(Shifted13(x)) == Unshifted13(x ^ (x >> 13));
    assert Shifted13(Unshifted13(x)) == Shifted13(x ^ (x >> 13) ^ (x >> 26));
  }

  lemma Undo13Bits(x: bv32)
    ensures (x ^ (x >> 13)) ^ ((x ^ (x >> 13)) >> 13) ^ ((x ^ (x >> 13)) >> 26) == x
    ensures (x ^ (x >> 13) ^ (x >> 26)) ^ ((x ^ (x >> 13) ^ (x >> 26)) >> 13) == x
  {
  }

  lemma Undo24(x: bv32)
    ensures Shifted24(Shifted24(x)) == x
  {
    Undo24Bits(x);
    assert Shifted24(x) == x ^ (x >> 24);
    assert Shifted24(Shifted24(x)) == Shifted24(x ^ (x >> 24));
  }

  lemma Undo24Bits(x: bv32)
    ensures (x ^ (x >> 24)) ^ ((x ^ (x >> 24)) >> 24) == x
  {
  }

  /** What a word contributes to the hash. */
  function MixWord(k: bv32): bv32 {
    Times(Shifted24(Times(k)))
  }

  function UnmixWord(k: bv32): bv32 {
    Untimes(Shifted24(Untimes(k)))
  }

  lemma MixWordInverse(k: bv32)
    ensures UnmixWord(MixWord(k)) == k && MixWord(UnmixWord(k)) == k
  {
    hide Times, Untimes, Shifted24;
    TimesInverse(k);
    TimesInverse(Shifted24(Times(k)));
    TimesInverse(Shifted24(Untimes(k)));
    Undo24(Times(k));
    Undo24(Untimes(k));
  }

  function Step(h: bv32, k: bv32): bv32 {
    Xor(Times(h), MixWord(k))
  }

  /** The last mixing of the hash. */
  function Final(h: bv32): bv32 {
    Shifted15(Times(Shifted13(h)))
  }

  function Unfinal(h: bv32): bv32 {
    Unshifted13(Untimes(Unshifted15(h)))
  }

  lemma FinalInverse(h: bv32)
    ensures Unfinal(Final(h)) == h && Final(Unfinal(h)) == h
  {
    hide Times, Untimes, Shifted13, Unshifted13, Shifted15, Unshifted15;
    Undo13(h);
    TimesInverse(Shifted13(h));
    Undo15(Times(Shifted13(h)));
    Undo15(h);
    TimesInverse(Unshifted15(h));
    Undo13(Untimes(Unshifted15(h)));
  }

  // ---- The hash.

  /** The last one to three bytes as a word. */
  function TailWord(b: Bytes): bv32
    requires 0 < |b| < 4
  {
    if |b| == 3 then ((b[2] as bv32) << 16) ^ ((b[1] as bv32) << 8) ^ (b[0] as bv32)
    else if |b| == 2 then ((b[1] as bv32) << 8) ^ (b[0] as bv32)
    else b[0] as bv32
  }

  /** What the last 0 to 3 bytes do to the hash. */
  function Tail(h: bv32, b: Bytes): bv32
    requires |b| < 4
  {
    if |b| == 0 then h else Times(Xor(h, TailWord(b)))
  }

  function Body(h: bv32, data: Bytes): bv32
    decreases |data|
  {
    if |data| >= 4 then Body(Step(h, DecodeFixed32(data)), data[4..]) else Tail(h, data)
  }

  /** `seed ^ n`, cut to 32 bits. */
  function Start(n: nat, seed: bv32): bv32 {
    seed ^ ((n % 0x1_0000_0000) as bv32)
  }

  function Hash32Of(data: Bytes, seed: bv32): bv32 {
    Final(Body(Start(|data|, seed), data))
  }

  method Hash32(data: Bytes, seed: bv32) returns (hash: bv32)
    ensures hash == Hash32Of(data, seed)
  {
    hide Times, Step, Final, Start;
    var h := Start(|data|, seed);
    var rest := data;
    while |rest| >= 4
      invariant Body(h, rest) == Body(Start(|data|, seed), data)
    {
      h := Step(h, DecodeFixed32(rest));
      rest := rest[4..];
    }
    // What is left is what `Tail` takes.
    if |rest| == 3 {
      XorAssoc(h, (rest[2] as bv32) << 16, (rest[1] as bv32) << 8, rest[0] as bv32);
      h := h ^ ((rest[2] as bv32) << 16);
      h := h ^ ((rest[1] as bv32) << 8);
      h := h ^ (rest[0] as bv32);
      h := Times(h);
    } else if |rest| == 2 {
      XorAssoc(h, 0, (rest[1] as bv32) << 8, rest[0] as bv32);
      h := h ^ ((rest[1] as bv32) << 8);
      h := h ^ (rest[0] as bv32);
      h := Times(h);
    } else if |rest| == 1 {
      h := h ^ (rest[0] as bv32);
      h := Times(h);
    }
    hash := Final(h);
  }

  method Hash32WithDefaultSeed(input: Bytes) returns (hash: bv32)
    ensures hash == Hash32Of(input, 0xBEEF)
  {
    hash := Hash32(input, 0xBEEF);
  }

  // ---- No collision inside a block.

  lemma StepInjective(h: bv32, k: bv32, g: bv32, j: bv32)
    requires h == g || k == j
    ensures Step(h, k) == Step(g, j) ==> h == g && k == j
  {
    hide Times, Untimes, MixWord, UnmixWord, Xor;
    TimesInverse(h);
    TimesInverse(g);
    MixWordInverse(k);
    MixWordInverse(j);
    XorInjective(Times(h), MixWord(k), MixWord(j));
    XorInjective(MixWord(k), Times(h), Times(g));
  }

  lemma DecodeInjective(a: Bytes, b: Bytes)
    requires |a| == |b| == 4
    ensures DecodeFixed32(a) == DecodeFixed32(b) ==> a == b
    ensures EncodeFixed32(DecodeFixed32(a)) == a
  {
  }

  lemma DecodeOfEncode(k: bv32)
    ensures DecodeFixed32(EncodeFixed32(k)) == k
  {
  }

  lemma XorAssoc(h: bv32, x: bv32, y: bv32, z: bv32)
    ensures h ^ x ^ y ^ z == h ^ (x ^ y ^ z)
    ensures h ^ y ^ z == h ^ (y ^ z)
  {
  }

  lemma TailWordInjective(a: Bytes, b: Bytes)
    requires 0 < |a| == |b| < 4
    ensures TailWord(a) == TailWord(b) <==> a == b
  {
    BytesOfWord(a[0], if |a| > 1 then a[1] else 0, if |a| > 2 then a[2] else 0,
                b[0], if |b| > 1 then b[1] else 0, if |b| > 2 then b[2] else 0);
  }

  lemma BytesOfWord(a0: bv8, a1: bv8, a2: bv8, b0: bv8, b1: bv8, b2: bv8)
    ensures ((a2 as bv32) << 16) ^ ((a1 as bv32) << 8) ^ (a0 as bv32)
         == ((b2 as bv32) << 16) ^ ((b1 as bv32) << 8) ^ (b0 as bv32)
       ==> a0 == b0 && a1 == b1 && a2 == b2
    ensures ((a1 as bv32) << 8) ^ (a0 as bv32) == ((b1 as bv32) << 8) ^ (b0 as bv32)
       ==> a0 == b0 && a1 == b1
    ensures a0 as bv32 == b0 as bv32 ==> a0 == b0
  {
  }

  lemma TailInjective(h: bv32, g: bv32, a: Bytes, b: Bytes)
    requires |a| == |b| < 4
    requires h == g || a == b
    ensures Tail(h, a) == Tail(g, b) ==> h == g && a == b
  {
    if |a| > 0 {
      hide Times, Untimes, TailWord, Xor;
      var x, y := TailWord(a), TailWord(b);
      TimesInverse(Xor(h, x));
      TimesInverse(Xor(g, y));
      TailWordInjective(a, b);
      XorInjective(h, x, y);
      XorInjective(x, h, g);
    }
  }

  lemma {:induction false} BodyInjectiveInHash(h: bv32, g: bv32, data: Bytes)
    requires Body(h, data) == Body(g, data)
    ensures h == g
    decreases |data|
  {
    hide Tail, Step;
    if |data| >= 4 {
      var k := DecodeFixed32(data);
      BodyInjectiveInHash(Step(h, k), Step(g, k), data[4..]);
      StepInjective(h, k, g, k);
    } else {
      TailInjective(h, g, data, data);
    }
  }

  /** `a` and `b` agree outside their `i`-th aligned word, or outside the tail when `i` is past the words. */
  predicate DifferInBlock(a: Bytes, b: Bytes, i: nat) {
    && |a| == |b|
    && 4 * i <= |a|
    && a[..4 * i] == b[..4 * i]
    && (4 * i + 4 <= |a| ==> a[4 * i + 4..] == b[4 * i + 4..])
    && a != b
  }

  lemma {:induction false} BodyDistinguishes(h: bv32, a: Bytes, b: Bytes, i: nat)
    requires DifferInBlock(a, b, i)
    ensures Body(h, a) != Body(h, b)
    decreases i
  {
    hide Tail, Step, DecodeFixed32;
    if |a| < 4 {
      TailInjective(h, h, a, b);
    } else if i == 0 {
      var k, j := DecodeFixed32(a), DecodeFixed32(b);
      assert a == a[..4] + a[4..] && b == b[..4] + b[4..];
      WordsDiffer(a, b);
      StepInjective(h, k, h, j);
      if Body(h, a) == Body(h, b) {
        BodyInjectiveInHash(Step(h, k), Step(h, j), a[4..]);
      }
    } else {
      assert a[..4] == a[..4 * i][..4] && b[..4] == b[..4 * i][..4];
      SameWord(a, b);
      assert a[4..][..4 * i - 4] == a[..4 * i][4..] && b[4..][..4 * i - 4] == b[..4 * i][4..];
      assert a == a[..4] + a[4..] && b == b[..4] + b[4..];
      BodyDistinguishes(Step(h, DecodeFixed32(a)), a[4..], b[4..], i - 1);
    }
  }

  lemma WordsDiffer(a: Bytes, b: Bytes)
    requires |a| >= 4 && |b| >= 4 && a[..4] != b[..4]
    ensures DecodeFixed32(a) != DecodeFixed32(b)
  {
    DecodeInjective(a[..4], b[..4]);
  }

  lemma SameWord(a: Bytes, b: Bytes)
    requires |a| >= 4 && |b| >= 4 && a[..4] == b[..4]
    ensures DecodeFixed32(a) == DecodeFixed32(b)
  {
    assert a[0] == a[..4][0] && a[1] == a[..4][1] && a[2] == a[..4][2] && a[3] == a[..4][3];
    assert b[0] == b[..4][0] && b[1] == b[..4][1] && b[2] == b[..4][2] && b[3] == b[..4][3];
  }

  /** Inputs of one length that differ inside a single block have different hashes, for every seed. */
  lemma NoCollisionInBlock(a: Bytes, b: Bytes, i: nat, seed: bv32)
    requires DifferInBlock(a, b, i)
    ensures Hash32Of(a, seed) != Hash32Of(b, seed)
  {
    hide Body, Final, Unfinal, Start;
    BodyDistinguishes(Start(|a|, seed), a, b, i);
    FinalInverse(Body(Start(|a|, seed), a));
    FinalInverse(Body(Start(|b|, seed), b));
  }

  /** Among inputs of one length up to four bytes, equal hashes mean equal inputs. */
  lemma ShortInputsDoNotCollide(a: Bytes, b: Bytes, seed: bv32)
    requires |a| == |b| <= 4
    ensures Hash32Of(a, seed) == Hash32Of(b, seed) <==> a == b
  {
    hide Hash32Of;
    if a != b {
      NoCollisionInBlock(a, b, 0, seed);
    }
  }

  /** The only four bytes with a given hash. */
  function Preimage(hash: bv32, seed: bv32): (b: Bytes)
    ensures |b| == 4
  {
    EncodeFixed32(UnmixWord(Xor(Unfinal(hash), Times(Start(4, seed)))))
  }

  /** On four-byte inputs the hash is a bijection onto the 32-bit words. */
  lemma FourByteHashIsBijective(hash: bv32, seed: bv32, a: Bytes)
    requires |a| == 4
    ensures Hash32Of(a, seed) == hash <==> a == Preimage(hash, seed)
  {
    hide Times, Untimes, MixWord, UnmixWord, Final, Unfinal, Start, EncodeFixed32, DecodeFixed32, Xor;
    var p := Preimage(hash, seed);
    var h := Start(4, seed);
    var k := UnmixWord(Xor(Unfinal(hash), Times(h)));
    DecodeOfEncode(k);
    MixWordInverse(Xor(Unfinal(hash), Times(h)));
    XorCancels(Times(h), Unfinal(hash));
    FinalInverse(hash);
    ShortInputsDoNotCollide(a, p, seed);
    assert Body(h, p) == Step(h, k) by {
      assert Body(h, p) == Body(Step(h, k), p[4..]);
    }
  }

  // ---- Values on numbers.

  lemma FinalOf(h: bv32, a: bv32, b: bv32, r: bv32)
    requires Shifted13(h) == a && Times(a) == b && Shifted15(b) == r
    ensures Final(h) == r
  {
    hide Shifted13, Times, Shifted15;
  }

  lemma TailOf(h: bv32, b: Bytes, w: bv32, x: bv32, r: bv32)
    requires 0 < |b| < 4 && TailWord(b) == w && Xor(h, w) == x && Times(x) == r
    ensures Tail(h, b) == r
  {
    hide TailWord, Xor, Times;
  }

  lemma StepOf(h: bv32, k: bv32, a: bv32, b: bv32, c: bv32, d: bv32, r: bv32)
    requires Times(k) == a && Shifted24(a) == b && Times(b) == c
    requires Times(h) == d && Xor(d, c) == r
    ensures Step(h, k) == r
  {
    hide Times, Shifted24, Xor;
  }

  lemma HashOfTail(data: Bytes, seed: bv32)
    requires |data| < 4
    ensures Hash32Of(data, seed) == Final(Tail(Start(|data|, seed), data))
  {
    hide Tail, Final, Start;
  }

  lemma HashOfWord(data: Bytes, seed: bv32)
    requires |data| == 4
    ensures Hash32Of(data, seed) == Final(Step(Start(4, seed), DecodeFixed32(data)))
  {
    hide Step, Times, Final, DecodeFixed32, Start;
    var h := Step(Start(4, seed), DecodeFixed32(data));
    assert Body(h, data[4..]) == h;
  }

  lemma Words()
    ensures TailWord([0x61]) == 0x61 && TailWord([0x61, 0x62]) == 0x6261 && TailWord([0x61, 0x62, 0x63]) == 0x636261
    ensures DecodeFixed32([0x61, 0x62, 0x63, 0x64]) == 0x64636261
  {
  }

  lemma Starts()
    ensures Start(0, 0xBEEF) == 0xBEEF && Start(1, 0xBEEF) == 0xBEEE && Start(2, 0xBEEF) == 0xBEED
    ensures Start(3, 0xBEEF) == 0xBEEC && Start(4, 0xBEEF) == 0xBEEB
  {
  }

  lemma HashZero()
    ensures Hash32Of([], 0xBEEF) == 0xB93D6A4A
  {
    hide Final, Step, TailWord, DecodeFixed32, Start, Hash32Of;
    Starts();
    HashOfTail([], 0xBEEF);
    assert Tail(0xBEEF, []) == 0xBEEF;
    FinalOf(0x0000BEEF, 0x0000BEEA, 0xB93C1832, 0xB93D6A4A);
  }

  lemma HashOne()
    ensures Hash32Of([0x61], 0xBEEF) == 0x59F316C0
  {
    hide Final, Tail, Step, TailWord, DecodeFixed32, Start, Hash32Of;
    Starts();
    HashOfTail([0x61], 0xBEEF);
    Words();
    TailOf(0x0000BEEE, [0x61], 0x61, 0x0000BE8F, 0x159E103B);
    FinalOf(0x159E103B, 0x159EBCCB, 0x59F3A527, 0x59F316C0);
  }

  lemma HashTwo()
    ensures Hash32Of([0x61, 0x62], 0xBEEF) == 0xA2873466
  {
    hide Final, Tail, Step, TailWord, DecodeFixed32, Start, Hash32Of;
    Starts();
    HashOfTail([0x61, 0x62], 0xBEEF);
    Words();
    TailOf(0x0000BEED, [0x61, 0x62], 0x6261, 0x0000DC8C, 0x9B87C97C);
    FinalOf(0x9B87C97C, 0x9B831542, 0xA286716A, 0xA2873466);
  }

  lemma HashThree()
    ensures Hash32Of([0x61, 0x62, 0x63], 0xBEEF) == 0x4FAC543D
  {
    hide Final, Tail, Step, TailWord, DecodeFixed32, Start, Hash32Of;
    Starts();
    HashOfTail([0x61, 0x62, 0x63], 0xBEEF);
    Words();
    TailOf(0x0000BEEC, [0x61, 0x62, 0x63], 0x636261, 0x0063DC8D, 0x4BF8B311);
    FinalOf(0x4BF8B311, 0x4BFAECD4, 0x4FACCB64, 0x4FAC543D);
  }

  lemma HashFour()
    ensures Hash32Of([0x61, 0x62, 0x63, 0x64], 0xBEEF) == 0x87A1B830
  {
    hide Final, Tail, Step, TailWord, DecodeFixed32, Start, Hash32Of;
    Starts();
    HashOfWord([0x61, 0x62, 0x63, 0x64], 0xBEEF);
    Words();
    StepOf(0x0000BEEB, 0x64636261, 0xAE938B75, 0xAE938BDB, 0xECF5B977, 0x150E01C7, 0xF9FBB8B0);
    FinalOf(0xF9FBB8B0, 0xF9FC776D, 0x87A0B771, 0x87A1B830);
  }

  /** The hashes of "", "a", "ab", "abc" and "abcd": one input for every number of bytes after the last word. */
  lemma KnownHashes()
    ensures Hash32Of([], 0xBEEF) == 0xB93D6A4A
    ensures Hash32Of([0x61], 0xBEEF) == 0x59F316C0
    ensures Hash32Of([0x61, 0x62], 0xBEEF) == 0xA2873466
    ensures Hash32Of([0x61, 0x62, 0x63], 0xBEEF) == 0x4FAC543D
    ensures Hash32Of([0x61, 0x62, 0x63, 0x64], 0xBEEF) == 0x87A1B830
  {
    hide Hash32Of;
    HashZero();
    HashOne();
    HashTwo();
    HashThree();
    HashFour();
  }
}

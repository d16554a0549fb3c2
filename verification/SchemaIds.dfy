// The schema id of a field list: a 32-bit hash that is extended field by field.
module SchemaIds {
  import opened Bytes

  const WORD := 0x1_0000_0000
  const FNV_OFFSET_BASIS := 0x811C9DC5
  const FNV_PRIME := 0x01000193
  const FNV_PRIME_INVERSE := 0x359C449B

  type word = x: int | 0 <= x < WORD

  // Bitwise exclusive or of the low n bits.
  function Xor(n: nat, a: nat, b: nat): nat {
    if n == 0 then 0 else (a + b) % 2 + 2 * Xor(n - 1, a / 2, b / 2)
  }

  lemma {:induction false} XorBound(n: nat, a: nat, b: nat, bound: nat)
    requires bound == Pow2(n)
    ensures Xor(n, a, b) < bound
  {
    if n > 0 {
      XorBound(n - 1, a / 2, b / 2, Pow2(n - 1));
    }
  }

  lemma {:induction false} XorTwice(n: nat, a: nat, b: nat)
    requires a < Pow2(n)
    ensures Xor(n, Xor(n, a, b), b) == a
  {
    if n > 0 {
      var rest := Xor(n - 1, a / 2, b / 2);
      var x := (a + b) % 2 + 2 * rest;
      assert x / 2 == rest && (x + b) % 2 == a % 2;
      XorTwice(n - 1, a / 2, b / 2);
      assert Xor(n, x, b) == (x + b) % 2 + 2 * Xor(n - 1, x / 2, b / 2);
    }
  }

  lemma Pow2Of8()
    ensures Pow2(8) == 256
  {
    assert Pow2(4) == 16;
  }

  function XorBits(a: byte, b: byte): byte {
    Pow2Of8();
    XorBound(8, a, b, 256);
    Xor(8, a, b)
  }

  lemma XorBitsTwice(a: byte, b: byte)
    ensures XorBits(XorBits(a, b), b) == a
  {
    Pow2Of8();
    XorTwice(8, a, b);
  }

  // A byte is xor-ed into the low byte of a word.
  function XorByte(s: word, b: byte): word {
    256 * (s / 256) + XorBits(s % 256, b)
  }

  // 32-bit multiplication with wrap-around.
  function Mul(s: word, k: nat): word {
    s * k % WORD
  }

  function ByteOf(fieldId: int32, i: nat): byte {
    fieldId / Pow256(i) % 256
  }

  function Mix(s: word, b: byte): word {
    Mul(XorByte(s, b), FNV_PRIME)
  }

  function Unmix(s: word, b: byte): word {
    XorByte(Mul(s, FNV_PRIME_INVERSE), b)
  }

  // updateSchemaId: each byte of the field id, lowest first, is xor-ed in and multiplied.
  function Update(s: word, fieldId: int32): word {
    Mix(Mix(Mix(Mix(s, ByteOf(fieldId, 0)), ByteOf(fieldId, 1)), ByteOf(fieldId, 2)), ByteOf(fieldId, 3))
  }

  // Takes the steps of Update back.
  function Undo(s: word, fieldId: int32): word {
    Unmix(Unmix(Unmix(Unmix(s, ByteOf(fieldId, 3)), ByteOf(fieldId, 2)), ByteOf(fieldId, 1)), ByteOf(fieldId, 0))
  }

  lemma XorByteTwice(s: word, b: byte)
    ensures XorByte(XorByte(s, b), b) == s
  {
    hide XorBits;
    XorBitsTwice(s % 256, b);
  }

  // The prime is odd, hence a unit modulo 2^32.
  lemma PrimeIsUnit(s: word)
    ensures Mul(Mul(s, FNV_PRIME), FNV_PRIME_INVERSE) == s
    ensures Mul(Mul(s, FNV_PRIME_INVERSE), FNV_PRIME) == s
  {
    var k := FNV_PRIME * FNV_PRIME_INVERSE / WORD;
    assert FNV_PRIME * FNV_PRIME_INVERSE == WORD * k + 1;
    var q, q' := s * FNV_PRIME / WORD, s * FNV_PRIME_INVERSE / WORD;
    DivModUnique(Mul(s, FNV_PRIME) * FNV_PRIME_INVERSE, WORD, s * k - q * FNV_PRIME_INVERSE, s);
    DivModUnique(Mul(s, FNV_PRIME_INVERSE) * FNV_PRIME, WORD, s * k - q' * FNV_PRIME, s);
  }

  lemma MixBijective(s: word, b: byte)
    ensures Unmix(Mix(s, b), b) == s && Mix(Unmix(s, b), b) == s
  {
    PrimeIsUnit(XorByte(s, b));
    XorByteTwice(s, b);
    XorByteTwice(Mul(s, FNV_PRIME_INVERSE), b);
    PrimeIsUnit(s);
  }

  // For a fixed field id the update is a bijection on 32-bit values.
  lemma UpdateBijective(s: word, fieldId: int32)
    ensures Undo(Update(s, fieldId), fieldId) == s
    ensures Update(Undo(s, fieldId), fieldId) == s
  {
    hide Mix, Unmix;
    var b0, b1, b2, b3 := ByteOf(fieldId, 0), ByteOf(fieldId, 1), ByteOf(fieldId, 2), ByteOf(fieldId, 3);
    MixBijective(s, b0);
    MixBijective(Mix(s, b0), b1);
    MixBijective(Mix(Mix(s, b0), b1), b2);
    MixBijective(Mix(Mix(Mix(s, b0), b1), b2), b3);
    MixBijective(s, b3);
    MixBijective(Unmix(s, b3), b2);
    MixBijective(Unmix(Unmix(s, b3), b2), b1);
    MixBijective(Unmix(Unmix(Unmix(s, b3), b2), b1), b0);
  }

  // The id after a list of fields.
  function Fold(s: word, fieldIds: seq<int32>): word
    decreases |fieldIds|
  {
    if fieldIds == [] then s else Fold(Update(s, fieldIds[0]), fieldIds[1..])
  }

  function SchemaId(fieldIds: seq<int32>): int32 {
    ToInt32(Fold(FNV_OFFSET_BASIS, fieldIds))
  }

  lemma {:induction false} FoldConcat(s: word, a: seq<int32>, b: seq<int32>)
    ensures Fold(s, a + b) == Fold(Fold(s, a), b)
    decreases |a|
  {
    hide Update;
    if a == [] {
      assert a + b == b;
    } else {
      FoldConcat(Update(s, a[0]), a[1..], b);
      assert (a + b)[1..] == a[1..] + b;
    }
  }

  lemma {:induction false} FoldInjective(x: word, y: word, tail: seq<int32>)
    ensures Fold(x, tail) == Fold(y, tail) <==> x == y
    decreases |tail|
  {
    hide Update, Undo;
    if tail != [] {
      UpdateBijective(x, tail[0]);
      UpdateBijective(y, tail[0]);
      FoldInjective(Update(x, tail[0]), Update(y, tail[0]), tail[1..]);
    }
  }

  lemma ToInt32Injective(x: word, y: word)
    ensures ToInt32(x) == ToInt32(y) <==> x == y
  {
    Widths();
    DivModUnique(x, WORD, 0, x);
    DivModUnique(y, WORD, 0, y);
  }

  // Two schemas that end alike share an id exactly if what comes before does.
  lemma CommonTail(a: seq<int32>, b: seq<int32>, tail: seq<int32>)
    ensures SchemaId(a + tail) == SchemaId(b + tail) <==> SchemaId(a) == SchemaId(b)
  {
    hide Fold;
    var x, y := Fold(FNV_OFFSET_BASIS, a), Fold(FNV_OFFSET_BASIS, b);
    FoldConcat(FNV_OFFSET_BASIS, a, tail);
    FoldConcat(FNV_OFFSET_BASIS, b, tail);
    FoldInjective(x, y, tail);
    ToInt32Injective(x, y);
    ToInt32Injective(Fold(x, tail), Fold(y, tail));
  }

  // ---------------------------------------------------------------- a collision

  // Exclusive or of two bits and of half bytes.
  function XorTwo(a: nat, b: nat): nat {
    (a + b) % 2 + 2 * ((a / 2 + b / 2) % 2)
  }

  function XorNibble(a: nat, b: nat): nat {
    XorTwo(a, b) + 4 * XorTwo(a / 2 / 2, b / 2 / 2)
  }

  lemma XorNibbles(a1: nat, a0: nat, b1: nat, b0: nat)
    requires a1 < 16 && a0 < 16 && b1 < 16 && b0 < 16
    ensures XorBits(16 * a1 + a0, 16 * b1 + b0) == 16 * XorNibble(a1, b1) + XorNibble(a0, b0)
  {
    hide XorNibble;
    LowNibble(4, a1, a0, b1, b0);
    LowNibble(0, 0, a1, 0, b1);
  }

  // The last four of n + 4 bits, two and two.
  lemma LowNibble(n: nat, a: nat, a0: nat, b: nat, b0: nat)
    requires a0 < 16 && b0 < 16
    ensures Xor(n + 4, 16 * a + a0, 16 * b + b0) == XorNibble(a0, b0) + 16 * Xor(n, a, b)
  {
    hide Xor, XorTwo;
    var a2, b2 := a0 / 2 / 2, b0 / 2 / 2;
    LowTwo(n + 2, 4 * a, a0, 4 * b, b0);
    LowTwo(n, a, a2, b, b2);
    FourHalves(a0);
    FourHalves(b0);
  }

  lemma LowTwo(n: nat, a: nat, a0: nat, b: nat, b0: nat)
    ensures Xor(n + 2, 4 * a + a0, 4 * b + b0) == XorTwo(a0, b0) + 4 * Xor(n, a + a0 / 2 / 2, b + b0 / 2 / 2)
  {
    hide Xor;
    XorHead(n + 2, 2 * a, a0, 2 * b, b0);
    XorHead(n + 1, a, a0 / 2, b, b0 / 2);
  }

  lemma FourHalves(a: nat)
    requires a < 16
    ensures a / 2 / 2 / 2 / 2 == 0
  {
  }

  lemma XorHead(n: nat, a: nat, a0: nat, b: nat, b0: nat)
    requires n > 0
    ensures Xor(n, 2 * a + a0, 2 * b + b0) == (a0 + b0) % 2 + 2 * Xor(n - 1, a + a0 / 2, b + b0 / 2)
  {
    assert (2 * a + a0) / 2 == a + a0 / 2 && (2 * b + b0) / 2 == b + b0 / 2;
    assert (2 * a + a0 + (2 * b + b0)) % 2 == (a0 + b0) % 2;
  }

  lemma Nibble(a: nat, b: nat)
    ensures XorNibble(a, b) ==
      (a + b) % 2 + 2 * ((a / 2 + b / 2) % 2) + 4 * ((a / 2 / 2 + b / 2 / 2) % 2) + 8 * ((a / 2 / 2 / 2 + b / 2 / 2 / 2) % 2)
  {
  }

  // One step, with the byte that it changes and the byte mixed in given by their half bytes.
  lemma MixIs(high: nat, a1: nat, a0: nat, b1: nat, b0: nat, y1: nat, y0: nat, k: nat, r: word)
    requires a1 < 16 && a0 < 16 && b1 < 16 && b0 < 16 && 256 * high + 16 * a1 + a0 < WORD
    requires XorNibble(a1, b1) == y1 && XorNibble(a0, b0) == y0 && (256 * high + 16 * y1 + y0) * FNV_PRIME == k * WORD + r
    ensures Mix(256 * high + 16 * a1 + a0, 16 * b1 + b0) == r
  {
    hide Xor, XorBits, XorByte, XorNibble;
    XorNibbles(a1, a0, b1, b0);
    XorLow(high, 16 * a1 + a0, 16 * b1 + b0);
    MulIs(256 * high + 16 * y1 + y0, k, r);
  }

  lemma XorLow(high: nat, a: byte, b: byte)
    requires 256 * high + a < WORD
    ensures XorByte(256 * high + a, b) == 256 * high + XorBits(a, b)
  {
    hide XorBits;
  }

  lemma MulIs(x: word, k: nat, r: word)
    requires x * FNV_PRIME == k * WORD + r
    ensures Mul(x, FNV_PRIME) == r
  {
    DivModUnique(x * FNV_PRIME, WORD, k, r);
  }

  lemma UpdateOf(s: word, b0: byte, b1: byte, b2: byte)
    ensures Update(s, b0 + 0x100 * b1 + 0x1_0000 * b2) == Mix(Mix(Mix(Mix(s, b0), b1), b2), 0)
  {
    hide Mix;
    var id := b0 + 0x100 * b1 + 0x1_0000 * b2;
    Widths();
    assert Pow256(0) == 1 && Pow256(3) == 0x100_0000;
    assert id / 0x100 == b1 + 0x100 * b2 && id / 0x1_0000 == b2 && id / 0x100_0000 == 0;
  }

  // The ids of the field names f115, f48, f284 and f267 in the usual mapper.
  const F115: int32 := 3087343
  const F48: int32 := 99690
  const F284: int32 := 3088520
  const F267: int32 := 3088461

  lemma F115Update()
    ensures Update(FNV_OFFSET_BASIS, F115) == 577660016
  {
    hide Mix, Update, Xor, XorNibble, Pow256;
    UpdateOf(2166136261, 239, 27, 47);
    Nibble(12, 14);
    Nibble(5, 15);
    MixIs(8461469, 12, 5, 14, 15, 2, 10, 8461672, 1779132702);
    Nibble(1, 1);
    Nibble(14, 11);
    MixIs(6949737, 1, 14, 1, 11, 0, 5, 6949903, 4109783775);
    Nibble(13, 2);
    Nibble(15, 15);
    MixIs(16053842, 13, 15, 2, 15, 15, 0, 16054228, 2412023760);
    Nibble(13, 0);
    Nibble(0, 0);
    MixIs(9421967, 13, 0, 0, 0, 13, 0, 9422194, 577660016);
  }

  lemma F48Update()
    ensures Update(577660016, F48) == 1918816752
  {
    hide Mix, Update, Xor, XorNibble, Pow256;
    UpdateOf(577660016, 106, 133, 1);
    Nibble(7, 6);
    Nibble(0, 10);
    MixIs(2256484, 7, 0, 6, 10, 1, 10, 2256538, 1304925422);
    Nibble(14, 8);
    Nibble(14, 5);
    MixIs(5097364, 14, 14, 8, 5, 6, 11, 5097486, 3694044273);
    Nibble(7, 0);
    Nibble(1, 1);
    MixIs(14429860, 7, 1, 0, 1, 7, 0, 14430207, 225238096);
    Nibble(5, 0);
    Nibble(0, 0);
    MixIs(879836, 5, 0, 0, 0, 5, 0, 879857, 1918816752);
  }

  lemma F284Update()
    ensures Update(FNV_OFFSET_BASIS, F284) == 3619623594
  {
    hide Mix, Update, Xor, XorNibble, Pow256;
    UpdateOf(2166136261, 136, 32, 47);
    Nibble(12, 8);
    Nibble(5, 8);
    MixIs(8461469, 12, 5, 8, 8, 4, 13, 8461672, 2366349367);
    Nibble(3, 2);
    Nibble(7, 0);
    MixIs(9243552, 3, 7, 2, 0, 1, 7, 9243774, 541918261);
    Nibble(3, 2);
    Nibble(5, 15);
    MixIs(2116868, 3, 5, 2, 15, 1, 10, 2116918, 4080891118);
    Nibble(14, 0);
    Nibble(14, 0);
    MixIs(15940980, 14, 14, 0, 0, 14, 14, 15941363, 3619623594);
  }

  lemma F267Update()
    ensures Update(3619623594, F267) == 1918816752
  {
    hide Mix, Update, Xor, XorNibble, Pow256;
    UpdateOf(3619623594, 77, 32, 47);
    Nibble(10, 4);
    Nibble(10, 13);
    MixIs(14139154, 10, 10, 4, 13, 14, 7, 14139494, 2294989221);
    Nibble(10, 2);
    Nibble(5, 0);
    MixIs(8964801, 10, 5, 2, 0, 8, 5, 8965016, 3694044255);
    Nibble(5, 2);
    Nibble(15, 15);
    MixIs(14429860, 5, 15, 2, 15, 7, 0, 14430207, 225238096);
    Nibble(5, 0);
    Nibble(0, 0);
    MixIs(879836, 5, 0, 0, 0, 5, 0, 879857, 1918816752);
  }

  // Two lists of two fields can have one schema id.
  lemma SchemaIdsCollide()
    ensures SchemaId([F115, F48]) == SchemaId([F284, F267])
  {
    hide Update;
    F115Update();
    F48Update();
    F284Update();
    F267Update();
    FoldTwo(F115, F48);
    FoldTwo(F284, F267);
  }

  lemma FoldTwo(a: int32, b: int32)
    ensures Fold(FNV_OFFSET_BASIS, [a, b]) == Update(Update(FNV_OFFSET_BASIS, a), b)
  {
    hide Update;
    var s := FNV_OFFSET_BASIS;
    assert Fold(Update(Update(s, a), b), []) == Update(Update(s, a), b);
    assert [a, b][1..] == [b] && [b][1..] == [];
  }
}

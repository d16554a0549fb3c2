// The bit set that carries protocol features (internal/bitset/bitset.go).
module BitSets {
  import opened Bytes

  const WORD_BITS := 64

  type Word = w: int | 0 <= w < 0x1_0000_0000_0000_0000

  // ------------------------------------------------------------- single words

  predicate HasBit(w: nat, n: nat) {
    if n == 0 then w % 2 == 1 else HasBit(w / 2, n - 1)
  }

  lemma {:induction false} HasBitMeaning(w: nat, n: nat)
    ensures HasBit(w, n) <==> w / Pow2(n) % 2 == 1
    decreases n
  {
    if n > 0 {
      HasBitMeaning(w / 2, n - 1);
      HalfTwice(w, Pow2(n - 1));
    }
  }

  lemma HalfTwice(v: nat, p: nat)
    requires p > 0
    ensures v / 2 / p == v / (2 * p)
  {
    var q, r := v / 2, v % 2;
    var k, m := q / p, q % p;
    assert 2 * (p * k + m) == (2 * p) * k + 2 * m by {
      assert 2 * (p * k) == (2 * p) * k;
    }
    DivModUnique(v, 2 * p, k, 2 * m + r);
  }

  // w | 1 << n
  function SetBit(w: nat, n: nat): (r: nat)
    ensures r > 0
  {
    if n == 0 then w - w % 2 + 1 else 2 * SetBit(w / 2, n - 1) + w % 2
  }

  // w &^ (1 << n)
  function ClearBit(w: nat, n: nat): nat {
    if n == 0 then w - w % 2 else 2 * ClearBit(w / 2, n - 1) + w % 2
  }

  lemma {:induction false} SetBitBits(w: nat, n: nat, m: nat)
    ensures HasBit(SetBit(w, n), m) <==> m == n || HasBit(w, m)
    decreases n
  {
    if n > 0 && m > 0 {
      SetBitBits(w / 2, n - 1, m - 1);
      assert SetBit(w, n) / 2 == SetBit(w / 2, n - 1);
    } else if n == 0 && m > 0 {
      assert SetBit(w, n) / 2 == w / 2;
    }
  }

  lemma {:induction false} ClearBitBits(w: nat, n: nat, m: nat)
    ensures HasBit(ClearBit(w, n), m) <==> m != n && HasBit(w, m)
    decreases n
  {
    if n > 0 && m > 0 {
      ClearBitBits(w / 2, n - 1, m - 1);
      assert ClearBit(w, n) / 2 == ClearBit(w / 2, n - 1);
    } else if n == 0 && m > 0 {
      assert ClearBit(w, n) / 2 == w / 2;
    }
  }

  lemma {:induction false} BitsBounded(w: nat, n: nat, k: nat)
    requires w < Pow2(k) && n < k
    ensures SetBit(w, n) < Pow2(k) && ClearBit(w, n) < Pow2(k)
    decreases n
  {
    if n > 0 {
      BitsBounded(w / 2, n - 1, k - 1);
    }
  }

  lemma {:induction false} NoBits(n: nat)
    ensures !HasBit(0, n)
  {
    if n > 0 {
      NoBits(n - 1);
    }
  }

  // A word is the bits that it has.
  lemma {:induction false} WordIsItsBits(v: nat, w: nat, k: nat)
    requires v < Pow2(k) && w < Pow2(k)
    requires forall n :: 0 <= n < k ==> HasBit(v, n) == HasBit(w, n)
    ensures v == w
    decreases k
  {
    if k > 0 {
      assert HasBit(v, 0) == HasBit(w, 0);
      forall n | 0 <= n < k - 1 ensures HasBit(v / 2, n) == HasBit(w / 2, n) {
        assert HasBit(v, n + 1) == HasBit(w, n + 1);
      }
      WordIsItsBits(v / 2, w / 2, k - 1);
    }
  }

  lemma WordRange()
    ensures Pow2(64) == 0x1_0000_0000_0000_0000
  {
    assert Pow2(8) == 256;
    assert Pow2(16) == 256 * Pow2(8);
    assert Pow2(24) == 256 * Pow2(16);
    assert Pow2(32) == 256 * Pow2(24);
    assert Pow2(40) == 256 * Pow2(32);
    assert Pow2(48) == 256 * Pow2(40);
    assert Pow2(56) == 256 * Pow2(48);
    assert Pow2(64) == 256 * Pow2(56);
  }

  // -------------------------------------------------------------------- values

  datatype Bits = Bits(words: seq<Word>, inUse: nat)

  function WordIndex(idx: nat): nat {
    idx / WORD_BITS
  }

  // The bit of its word that stands for an index.  Words after the first divide by the number of
  // the word, not by its width.
  function Shift(idx: nat): nat {
    if WordIndex(idx) > 0 then idx % WordIndex(idx) else idx
  }

  // Every index names a bit of its word: dividing 64 * w + r by w leaves what dividing r leaves.
  lemma ShiftSmall(idx: nat)
    ensures Shift(idx) < WORD_BITS
  {
    var w, r := WordIndex(idx), idx % WORD_BITS;
    if w > 0 {
      var q, rest := r / w, r % w;
      assert w * (WORD_BITS + q) == w * WORD_BITS + w * q;
      DivModUnique(idx, w, WORD_BITS + q, rest);
    }
  }

  // Words in use exist, and words out of use are zero.
  predicate Shaped(b: Bits) {
    b.inUse <= |b.words| && forall i :: b.inUse <= i < |b.words| ==> b.words[i] == 0
  }

  // The last word in use has a bit.
  predicate Normal(b: Bits) {
    Shaped(b) && (b.inUse > 0 ==> b.words[b.inUse - 1] != 0)
  }

  // Bit n of word w.
  predicate BitAt(b: Bits, w: nat, n: nat)
    requires Shaped(b)
  {
    w < b.inUse && HasBit(b.words[w], n)
  }

  predicate TestIn(b: Bits, idx: nat)
    requires Shaped(b)
  {
    BitAt(b, WordIndex(idx), Shift(idx))
  }

  function TopUsed(words: seq<Word>, n: nat): (r: nat)
    requires n <= |words|
    ensures r <= n && (r > 0 ==> words[r - 1] != 0)
    ensures forall i :: r <= i < n ==> words[i] == 0
  {
    if n > 0 && words[n - 1] == 0 then TopUsed(words, n - 1) else n
  }

  function Expand(b: Bits, w: nat): (r: Bits)
    requires Shaped(b)
    ensures Shaped(r) && r.inUse == if b.inUse < w + 1 then w + 1 else b.inUse
    ensures forall i :: 0 <= i < |r.words| ==> r.words[i] == if i < b.inUse then b.words[i] else 0
  {
    if b.inUse >= w + 1 then b
    else if |b.words| >= w + 1 then Bits(b.words, w + 1)
    else
      var size := if w + 1 > 2 * |b.words| then w + 1 else 2 * |b.words|;
      Bits(b.words + seq(size - |b.words|, _ => 0), w + 1)
  }

  function SetIn(b: Bits, idx: nat): (r: Bits)
    requires Shaped(b)
    ensures Shaped(r)
  {
    var e, w := Expand(b, WordIndex(idx)), WordIndex(idx);
    BitsInWord(e.words[w], idx);
    e.(words := e.words[w := SetBit(e.words[w], Shift(idx))])
  }

  lemma BitsInWord(w: Word, idx: nat)
    ensures SetBit(w, Shift(idx)) < 0x1_0000_0000_0000_0000 && ClearBit(w, Shift(idx)) < 0x1_0000_0000_0000_0000
  {
    WordRange();
    ShiftSmall(idx);
    BitsBounded(w, Shift(idx), WORD_BITS);
  }

  function ClearIn(b: Bits, idx: nat): (r: Bits)
    requires Shaped(b)
    ensures Shaped(r)
  {
    var w := WordIndex(idx);
    if w >= b.inUse then b
    else
      BitsInWord(b.words[w], idx);
      var cleared := b.words[w := ClearBit(b.words[w], Shift(idx))];
      Bits(cleared, TopUsed(cleared, b.inUse))
  }

  // Setting and clearing change one bit of one word.
  lemma SetBitsAt(b: Bits, idx: nat, w: nat, n: nat)
    requires Shaped(b)
    ensures BitAt(SetIn(b, idx), w, n) <==>
      BitAt(b, w, n) || (w == WordIndex(idx) && n == Shift(idx))
  {
    var e := Expand(b, WordIndex(idx));
    NoBits(n);
    SetBitBits(e.words[WordIndex(idx)], Shift(idx), n);
  }

  lemma ClearBitsAt(b: Bits, idx: nat, w: nat, n: nat)
    requires Shaped(b)
    ensures BitAt(ClearIn(b, idx), w, n) <==>
      BitAt(b, w, n) && !(w == WordIndex(idx) && n == Shift(idx))
  {
    NoBits(n);
    var v := WordIndex(idx);
    if v < b.inUse {
      ClearBitBits(b.words[v], Shift(idx), n);
      var cleared := ClearIn(b, idx).words;
      assert cleared[v] == ClearBit(b.words[v], Shift(idx));
      assert w < b.inUse ==> (w < ClearIn(b, idx).inUse || cleared[w] == 0);
    }
  }

  // Setting and clearing any bit keep the normal form.
  lemma OpKeepsNormal(b: Bits, idx: nat)
    requires Normal(b)
    ensures Normal(SetIn(b, idx)) && Normal(ClearIn(b, idx))
  {
  }

  // ------------------------------------------------------- a set of indices

  datatype Op = SetOp(idx: nat) | ClearOp(idx: nat)

  function Apply(b: Bits, op: Op): (r: Bits)
    requires Shaped(b)
    ensures Shaped(r)
  {
    match op case SetOp(idx) => SetIn(b, idx) case ClearOp(idx) => ClearIn(b, idx)
  }

  function Run(ops: seq<Op>): (b: Bits)
    ensures Shaped(b)
  {
    if ops == [] then Bits([0], 0) else Apply(Run(ops[..|ops| - 1]), ops[|ops| - 1])
  }

  // The mathematical set that the operations describe.
  function Members(ops: seq<Op>): set<nat> {
    if ops == [] then {}
    else
      var before := Members(ops[..|ops| - 1]);
      match ops[|ops| - 1]
      case SetOp(idx) => before + {idx}
      case ClearOp(idx) => before - {idx}
  }

  predicate Below(ops: seq<Op>, n: nat) {
    forall i :: 0 <= i < |ops| ==> ops[i].idx < n
  }

  lemma SlotsApart(i: nat, k: nat)
    requires i <= WORD_BITS && k <= WORD_BITS && i != k
    ensures WordIndex(i) != WordIndex(k) || Shift(i) != Shift(k)
  {
  }

  lemma {:induction false} RunAgrees(ops: seq<Op>, idx: nat)
    requires Below(ops, WORD_BITS + 1) && idx <= WORD_BITS
    ensures TestIn(Run(ops), idx) <==> idx in Members(ops)
    decreases |ops|
  {
    hide BitAt, SetIn, ClearIn;
    if ops == [] {
      assert !BitAt(Bits([0], 0), WordIndex(idx), Shift(idx)) by { NothingIn(WordIndex(idx), Shift(idx)); }
    } else {
      var init, op := ops[..|ops| - 1], ops[|ops| - 1];
      RunAgrees(init, idx);
      var before := Run(init);
      SetBitsAt(before, op.idx, WordIndex(idx), Shift(idx));
      ClearBitsAt(before, op.idx, WordIndex(idx), Shift(idx));
      if op.idx != idx {
        SlotsApart(op.idx, idx);
      }
    }
  }

  lemma NothingIn(w: nat, n: nat)
    ensures !BitAt(Bits([0], 0), w, n)
  {
  }

  // Whatever is set and cleared, the top word in use has a bit and words out of use are zero.
  lemma {:induction false} RunNormal(ops: seq<Op>)
    ensures Normal(Run(ops))
    decreases |ops|
  {
    hide SetIn, ClearIn;
    if ops != [] {
      RunNormal(ops[..|ops| - 1]);
      OpKeepsNormal(Run(ops[..|ops| - 1]), ops[|ops| - 1].idx);
    }
  }

  ghost predicate IsSetBelow(n: nat) {
    forall ops, idx: nat :: Below(ops, n) && idx < n ==> (TestIn(Run(ops), idx) <==> idx in Members(ops))
  }

  // Indices 64 and 65 share a bit, so the bit set is a set exactly up to index 64.
  lemma SetUpToSixtyFour(n: nat)
    ensures IsSetBelow(n) <==> n <= WORD_BITS + 1
  {
    hide Run, Members, TestIn;
    if n <= WORD_BITS + 1 {
      forall ops, idx: nat | Below(ops, n) && idx < n ensures TestIn(Run(ops), idx) <==> idx in Members(ops) {
        RunAgrees(ops, idx);
      }
    } else {
      SharedBit();
      assert Below([SetOp(64)], n) && 65 < n;
    }
  }

  lemma SharedBit()
    ensures TestIn(Run([SetOp(64)]), 65) && 65 !in Members([SetOp(64)])
  {
    hide BitAt, SetIn;
    var ops := [SetOp(64)];
    assert ops[..0] == [];
    SetBitsAt(Run([]), 64, 1, 0);
    assert WordIndex(65) == 1 && Shift(65) == 0;
    assert Members(ops) == Members([]) + {64};
  }

  // ------------------------------------------------------------------ equality

  predicate Same(a: Bits, b: Bits)
    requires Shaped(a) && Shaped(b)
  {
    a.inUse == b.inUse && a.words[..a.inUse] == b.words[..b.inUse]
  }

  lemma HighestBit(w: Word)
    requires w != 0
    ensures exists n :: 0 <= n < WORD_BITS && HasBit(w, n)
  {
    if forall n :: 0 <= n < WORD_BITS ==> !HasBit(w, n) {
      WordRange();
      forall n | 0 <= n < WORD_BITS ensures HasBit(w, n) == HasBit(0, n) {
        NoBits(n);
      }
      WordIsItsBits(w, 0, WORD_BITS);
    }
  }

  ghost predicate SameBits(a: Bits, b: Bits)
    requires Shaped(a) && Shaped(b)
  {
    forall w: nat, n: nat :: n < WORD_BITS ==> (BitAt(a, w, n) <==> BitAt(b, w, n))
  }

  lemma NotLonger(a: Bits, b: Bits)
    requires Normal(a) && Shaped(b) && SameBits(a, b)
    ensures a.inUse <= b.inUse
  {
    if a.inUse > b.inUse {
      var w := a.inUse - 1;
      HighestBit(a.words[w]);
      var n :| 0 <= n < WORD_BITS && HasBit(a.words[w], n);
      assert BitAt(a, w, n) && !BitAt(b, w, n);
    }
  }

  // In normal form, equality is having the same bits, however many words there are.
  lemma EqualsMeaning(a: Bits, b: Bits)
    requires Normal(a) && Normal(b)
    ensures Same(a, b) <==> SameBits(a, b)
  {
    if SameBits(a, b) {
      NotLonger(a, b);
      NotLonger(b, a);
      WordRange();
      forall w: nat | w < a.inUse ensures a.words[w] == b.words[w] {
        forall n: nat | n < WORD_BITS ensures HasBit(a.words[w], n) == HasBit(b.words[w], n) {
          assert BitAt(a, w, n) <==> BitAt(b, w, n);
        }
        WordIsItsBits(a.words[w], b.words[w], WORD_BITS);
      }
    }
    if Same(a, b) {
      forall w: nat, n: nat | n < WORD_BITS ensures BitAt(a, w, n) <==> BitAt(b, w, n) {
        if w < a.inUse {
          assert a.words[..a.inUse][w] == b.words[..b.inUse][w];
        }
      }
    }
  }

  // --------------------------------------------------------------------- bytes

  function WordBytes(words: seq<Word>): (data: seq<byte>)
    ensures |data| == 8 * |words|
  {
    if words == [] then [] else WordBytes(words[..|words| - 1]) + LE(8, words[|words| - 1])
  }

  // The words of bytes that are filled up with zeros to whole words.
  function ParseWords(data: seq<byte>): (words: seq<Word>)
    requires |data| % 8 == 0
    ensures |words| == |data| / 8
    decreases |data|
  {
    if data == [] then []
    else
      assert FromLE(data[|data| - 8..]) < 0x1_0000_0000_0000_0000 by { Widths(); }
      ParseWords(data[..|data| - 8]) + [FromLE(data[|data| - 8..])]
  }

  function Padded(data: seq<byte>): (p: seq<byte>)
    ensures |p| % 8 == 0
  {
    if |data| % 8 == 0 then data else data + Zeros(8 - |data| % 8)
  }

  function OfBytes(data: seq<byte>): (b: Bits)
    ensures Normal(b)
  {
    if data == [] then Bits([0], 0)
    else
      var words := ParseWords(Padded(data));
      Bits(words, TopUsed(words, |words|))
  }

  function BytesOf(b: Bits): seq<byte>
    requires Shaped(b)
  {
    WordBytes(b.words[..b.inUse])
  }

  // Bit 8 * i + n of a little-endian number is bit n of byte i.
  lemma {:induction false} BitOfByte(s: seq<byte>, i: nat, n: nat)
    requires i < |s| && n < 8
    ensures HasBit(FromLE(s), 8 * i + n) <==> HasBit(s[i], n)
  {
    var v, rest := FromLE(s), FromLE(s[1..]);
    if i == 0 {
      LowBits(s[0], rest, n);
    } else {
      BitOfByte(s[1..], i - 1, n);
      HighBits(s[0], rest, 8 * (i - 1) + n);
    }
  }

  lemma LowBits(b: byte, rest: nat, n: nat)
    requires n < 8
    ensures HasBit(b + 256 * rest, n) <==> HasBit(b, n)
  {
    assert Pow2(8) == 256;
    BitBelow(8, b, rest, n);
  }

  lemma HighBits(b: byte, rest: nat, n: nat)
    ensures HasBit(b + 256 * rest, 8 + n) <==> HasBit(rest, n)
  {
    assert Pow2(8) == 256;
    BitAbove(8, b, rest, n);
  }

  lemma HalfShifted(k: nat, b: nat, rest: nat)
    requires k > 0
    ensures (b + Pow2(k) * rest) / 2 == b / 2 + Pow2(k - 1) * rest && (b + Pow2(k) * rest) % 2 == b % 2
  {
    assert Pow2(k) * rest == 2 * (Pow2(k - 1) * rest);
  }

  lemma {:induction false} BitBelow(k: nat, b: nat, rest: nat, n: nat)
    requires n < k
    ensures HasBit(b + Pow2(k) * rest, n) <==> HasBit(b, n)
    decreases n
  {
    HalfShifted(k, b, rest);
    if n > 0 {
      BitBelow(k - 1, b / 2, rest, n - 1);
    }
  }

  lemma {:induction false} BitAbove(k: nat, b: nat, rest: nat, n: nat)
    requires b < Pow2(k)
    ensures HasBit(b + Pow2(k) * rest, k + n) <==> HasBit(rest, n)
    decreases k
  {
    if k > 0 {
      HalfShifted(k, b, rest);
      BitAbove(k - 1, b / 2, rest, n);
    }
  }

  lemma {:induction false} WordBytesAt(words: seq<Word>, w: nat)
    requires w < |words|
    ensures WordBytes(words)[8 * w..8 * w + 8] == LE(8, words[w])
    decreases |words|
  {
    hide LE;
    var init := words[..|words| - 1];
    if w < |init| {
      WordBytesAt(init, w);
      assert WordBytes(words)[8 * w..8 * w + 8] == WordBytes(init)[8 * w..8 * w + 8];
    }
  }

  // In the bytes of a bit set, bit n of word w is bit n % 8 of byte 8 * w + n / 8, and words out of
  // use are not there.
  lemma BitsInBytes(b: Bits, w: nat, n: nat)
    requires Shaped(b) && n < WORD_BITS
    ensures var data := BytesOf(b);
      && |data| == 8 * b.inUse
      && (BitAt(b, w, n) <==> 8 * w + n / 8 < |data| && data[8 * w + n / 8] / Pow2(n % 8) % 2 == 1)
  {
    hide LE, FromLE, HasBit, WordBytes;
    if w < b.inUse {
      var words := b.words[..b.inUse];
      var data := BytesOf(b);
      WordBytesAt(words, w);
      Widths();
      UnsignedRoundTrip(8, words[w]);
      BitOfByte(LE(8, words[w]), n / 8, n % 8);
      assert data[8 * w..8 * w + 8][n / 8] == data[8 * w + n / 8];
      HasBitMeaning(data[8 * w + n / 8], n % 8);
    }
  }

  lemma {:induction false} ParseWordsAt(data: seq<byte>, w: nat)
    requires |data| % 8 == 0 && 8 * w < |data|
    ensures 8 * w + 8 <= |data| && ParseWords(data)[w] == FromLE(data[8 * w..8 * w + 8])
    decreases |data|
  {
    hide FromLE;
    var init := data[..|data| - 8];
    if 8 * w < |init| {
      ParseWordsAt(init, w);
      assert data[8 * w..8 * w + 8] == init[8 * w..8 * w + 8];
    } else {
      assert data[8 * w..8 * w + 8] == data[|data| - 8..];
    }
  }

  // And in the bit set read from bytes, bit n of word w is bit n % 8 of byte 8 * w + n / 8.
  lemma BitsFromBytes(data: seq<byte>, w: nat, n: nat)
    requires n < WORD_BITS
    ensures BitAt(OfBytes(data), w, n) <==> 8 * w + n / 8 < |data| && data[8 * w + n / 8] / Pow2(n % 8) % 2 == 1
  {
    hide FromLE, HasBit, ParseWords;
    if data != [] {
      var padded, words := Padded(data), ParseWords(Padded(data));
      if w < |words| {
        ParseWordsAt(padded, w);
        var bytes := padded[8 * w..8 * w + 8];
        BitOfByte(bytes, n / 8, n % 8);
        assert bytes[n / 8] == padded[8 * w + n / 8];
        HasBitMeaning(padded[8 * w + n / 8], n % 8);
        NoBits(n % 8);
        NoBits(n);
      }
    }
  }

  lemma {:induction false} WordsReadBack(words: seq<Word>)
    ensures ParseWords(WordBytes(words)) == words
  {
    hide LE, FromLE;
    if words != [] {
      var init, last := words[..|words| - 1], words[|words| - 1];
      WordsReadBack(init);
      Widths();
      UnsignedRoundTrip(8, last);
      var data := WordBytes(words);
      assert data[..|data| - 8] == WordBytes(init) && data[|data| - 8..] == LE(8, last);
    }
  }

  lemma {:induction false} ZerosValue(n: nat)
    ensures FromLE(Zeros(n)) == 0
  {
    if n > 0 {
      ZerosValue(n - 1);
      assert Zeros(n)[1..] == Zeros(n - 1);
    }
  }

  // Zero bytes behind whole words are words that are zero.
  lemma {:induction false} ZerosParsed(data: seq<byte>, k: nat)
    requires |data| % 8 == 0
    ensures ParseWords(data + Zeros(8 * k)) == ParseWords(data) + seq(k, _ => 0)
    decreases k
  {
    hide FromLE;
    if k == 0 {
      assert data + Zeros(0) == data;
    } else {
      ZerosParsed(data, k - 1);
      var all := data + Zeros(8 * k);
      assert all[..|all| - 8] == data + Zeros(8 * (k - 1)) && all[|all| - 8..] == Zeros(8);
      ZerosValue(8);
    }
  }

  lemma {:induction false} TopUsedZeros(words: seq<Word>, k: nat)
    requires words != [] ==> words[|words| - 1] != 0
    ensures TopUsed(words + seq(k, _ => 0), |words| + k) == |words|
  {
    var all: seq<Word> := words + seq(k, _ => 0);
    assert words != [] ==> all[|words| - 1] == words[|words| - 1];
    assert forall i :: |words| <= i < |all| ==> all[i] == 0;
  }

  // Writing a bit set and reading it back gives an equal one, with any number of zero bytes behind.
  lemma BytesRoundTrip(b: Bits, zeros: nat)
    requires Normal(b)
    ensures Same(OfBytes(BytesOf(b) + Zeros(zeros)), b)
  {
    hide ParseWords, WordBytes;
    var words, data := b.words[..b.inUse], BytesOf(b) + Zeros(zeros);
    if data != [] {
      var k := (zeros + 7) / 8;
      assert Padded(data) == BytesOf(b) + Zeros(8 * k);
      WordsReadBack(words);
      ZerosParsed(BytesOf(b), k);
      TopUsedZeros(words, k);
    }
  }

  // ------------------------------------------------------------------- the class

  method PadToWords(data: seq<byte>) returns (padded: seq<byte>)
    ensures padded == Padded(data)
  {
    padded := data;
    var x := |data| % 8;
    if x > 0 {
      for i := x to 8
        invariant padded == data + Zeros(i - x)
      {
        padded := padded + [0];
      }
    }
  }

  method ReadWords(data: seq<byte>) returns (words: seq<Word>)
    requires |data| % 8 == 0
    ensures words == ParseWords(data)
  {
    hide FromLE;
    Widths();
    words := [];
    for i := 0 to |data| / 8
      invariant words == ParseWords(data[..8 * i])
    {
      assert data[..8 * (i + 1)][..8 * i] == data[..8 * i];
      assert data[..8 * (i + 1)][8 * i..] == data[8 * i..8 * i + 8];
      words := words + [FromLE(data[8 * i..8 * i + 8])];
    }
    assert data[..8 * (|data| / 8)] == data;
  }

  class BitSet {
    var words: seq<Word>
    var wordsInUse: nat

    ghost function View(): Bits
      reads this
    {
      Bits(words, wordsInUse)
    }

    ghost predicate Valid()
      reads this
    {
      Shaped(View())
    }

    constructor ()
      ensures Valid() && View() == Run([])
    {
      words, wordsInUse := [0], 0;
    }

    constructor FromBytes(data: seq<byte>)
      ensures Valid() && View() == OfBytes(data)
    {
      var parsed: seq<Word> := [0];
      if |data| != 0 {
        var padded := PadToWords(data);
        parsed := ReadWords(padded);
      }
      words := parsed;
      wordsInUse := if |data| == 0 then 0 else |parsed|;
      new;
      if |data| != 0 {
        RecalculateWordsInUse();
      }
    }

    method RecalculateWordsInUse()
      requires wordsInUse <= |words|
      modifies this`wordsInUse
      ensures wordsInUse == TopUsed(words, old(wordsInUse))
    {
      var i: int := wordsInUse - 1;
      while i >= 0
        invariant -1 <= i < wordsInUse
        invariant TopUsed(words, wordsInUse) == TopUsed(words, i + 1)
      {
        if words[i] != 0 {
          break;
        }
        i := i - 1;
      }
      wordsInUse := i + 1;
    }

    method ExpandTo(wordIdx: nat)
      requires Valid()
      modifies this
      ensures Valid() && View() == Expand(old(View()), wordIdx)
    {
      var wordsRequired := wordIdx + 1;
      if wordsInUse < wordsRequired {
        if |words| < wordsRequired {
          var size := if wordsRequired > |words| * 2 then wordsRequired else |words| * 2;
          words := words + seq(size - |words|, _ => 0);
        }
        wordsInUse := wordsRequired;
      }
    }

    method Test(idx: nat) returns (b: bool)
      requires Valid()
      ensures b <==> TestIn(View(), idx)
    {
      var wordIdx := WordIndex(idx);
      if wordIdx >= wordsInUse {
        return false;
      }
      var bit := if wordIdx > 0 then idx % wordIdx else idx;
      return HasBit(words[wordIdx], bit);
    }

    method Set(idx: nat)
      requires Valid()
      modifies this
      ensures Valid() && View() == SetIn(old(View()), idx)
    {
      var wordIdx := WordIndex(idx);
      ExpandTo(wordIdx);
      var bit := if wordIdx > 0 then idx % wordIdx else idx;
      BitsInWord(words[wordIdx], idx);
      words := words[wordIdx := SetBit(words[wordIdx], bit)];
    }

    method Clear(idx: nat)
      requires Valid()
      modifies this
      ensures Valid() && View() == ClearIn(old(View()), idx)
    {
      var wordIdx := WordIndex(idx);
      if wordIdx >= wordsInUse {
        return;
      }
      var bit := if wordIdx > 0 then idx % wordIdx else idx;
      BitsInWord(words[wordIdx], idx);
      words := words[wordIdx := ClearBit(words[wordIdx], bit)];
      RecalculateWordsInUse();
    }

    method Equals(other: BitSet) returns (equal: bool)
      requires Valid() && other.Valid()
      ensures equal <==> Same(View(), other.View())
    {
      if wordsInUse != other.wordsInUse {
        return false;
      }
      for i := 0 to wordsInUse
        invariant words[..i] == other.words[..i]
      {
        if words[i] != other.words[i] {
          assert words[..wordsInUse][i] != other.words[..wordsInUse][i];
          return false;
        }
      }
      return true;
    }

    method ToBytes() returns (data: seq<byte>)
      requires Valid()
      ensures data == BytesOf(View())
    {
      var n := wordsInUse;
      data := [];
      for i := 0 to n
        invariant data == WordBytes(words[..i])
      {
        assert words[..i + 1][..i] == words[..i];
        data := data + LE(8, words[i]);
      }
    }
  }
}

/**
 The hash and the stream said another way: the hash by the bits of its words and by published values, the stream of an
 entry byte by byte.
 */
module FnvReference {

  import opened Prelude
  import opened Fnv
  import opened Fingerprint

  // ---------------------------------------------------------------- bits

  predicate Bit(n: nat, i: nat) {
    n / Pow2(i) % 2 == 1
  }

  lemma HalfOfQuotient(n: nat, p: nat, double: nat)
    requires p > 0 && double == 2 * p
    ensures n / double == n / 2 / p
  {
    var q := n / 2 / p;
    var r := n / 2 - q * p;
    assert 0 <= r < p;
    assert n == q * double + (2 * r + n % 2) by { assert n == 2 * (q * p + r) + n % 2; }
    QuotientIs(n, double, q, 2 * r + n % 2);
  }

  lemma BitStep(n: nat, i: nat)
    ensures Bit(n, i + 1) == Bit(n / 2, i)
  {
    HalfOfQuotient(n, Pow2(i), Pow2(i + 1));
  }

  // Each bit of the exclusive or is set exactly when one of the two bits is.
  lemma {:induction false} XorBit(a: nat, b: nat, i: nat)
    ensures Bit(Xor(a, b), i) <==> Bit(a, i) != Bit(b, i)
    decreases i
  {
    var x := Xor(a, b);
    var d := (a % 2 + b % 2) % 2;
    XorStep(a, b);
    Bits(Xor(a / 2, b / 2), d);
    hide Xor;
    if i == 0 {
      assert Bit(x, 0) <==> x % 2 == 1;
    } else {
      BitStep(x, i - 1);
      BitStep(a, i - 1);
      BitStep(b, i - 1);
      hide Bit;
      XorBit(a / 2, b / 2, i - 1);
    }
  }

  // Numbers below 2^k with the same k bits are the same.
  lemma {:induction false} SameBits(x: nat, y: nat, k: nat)
    requires x < Pow2(k) && y < Pow2(k) && forall i :: 0 <= i < k ==> Bit(x, i) == Bit(y, i)
    ensures x == y
    decreases k
  {
    if k > 0 {
      assert Bit(x, 0) == Bit(y, 0);
      assert x % 2 == y % 2;
      forall i | 0 <= i < k - 1
        ensures Bit(x / 2, i) == Bit(y / 2, i)
      {
        BitStep(x, i);
        BitStep(y, i);
        assert Bit(x, i + 1) == Bit(y, i + 1);
      }
      SameBits(x / 2, y / 2, k - 1);
    }
  }

  // One byte of FNV-1a: the word whose bits are those of the state, flipped where the byte's are set, times the prime,
  // modulo 2^64.
  lemma MixIs(h: Word, b: Byte, x: Word)
    requires forall i :: 0 <= i < 64 ==> (Bit(x, i) <==> Bit(h, i) != Bit(b, i))
    ensures Mix(h, b) == x * 0x100_0000_01b3 % 0x1_0000_0000_0000_0000
  {
    hide Bit;
    var bits := 64;
    WordBits(bits);
    XorIsWord(h, b);
    forall i | 0 <= i < bits
      ensures Bit(Xor(h, b), i) == Bit(x, i)
    {
      XorBit(h, b, i);
    }
    SameBits(Xor(h, b), x, bits);
  }

  // ---------------------------------------------------------------- values

  function Value(x: bv8): nat {
    x as nat
  }

  function Flip(x: bv8, y: bv8): bv8 {
    x ^ y
  }

  lemma Halved(x: bv8)
    ensures Value(x >> 1) == Value(x) / 2 && Value(x & 1) == Value(x) % 2
    ensures x != 0 <==> Value(x) > 0
  {
  }

  lemma LowBit(x: bv8, y: bv8)
    ensures Value(Flip(x, y) & 1) == (Value(x & 1) + Value(y & 1)) % 2
    ensures Flip(x, y) >> 1 == Flip(x >> 1, y >> 1)
    ensures Flip(0, 0) == 0
  {
  }

  lemma XorFrom(a: nat, b: nat, n: nat)
    requires n / 2 == Xor(a / 2, b / 2) && n % 2 == (a % 2 + b % 2) % 2
    ensures Xor(a, b) == n
  {
    hide Xor;
    XorStep(a, b);
  }

  lemma FlipHalves(x: bv8, y: bv8)
    ensures Value(Flip(x, y)) / 2 == Value(Flip(x >> 1, y >> 1))
    ensures Value(Flip(x, y)) % 2 == (Value(x) % 2 + Value(y) % 2) % 2
    ensures Value(x) == 0 && Value(y) == 0 ==> Value(Flip(x, y)) == 0
  {
    hide Value;
    Halved(x);
    Halved(y);
    Halved(Flip(x, y));
    LowBit(x, y);
  }

  lemma {:induction false} FlipIsXor(x: bv8, y: bv8)
    ensures Xor(Value(x), Value(y)) == Value(Flip(x, y))
    decreases Value(x) + Value(y)
  {
    hide Xor, Value, Flip;
    Halved(x);
    Halved(y);
    FlipHalves(x, y);
    if Value(x) > 0 || Value(y) > 0 {
      FlipIsXor(x >> 1, y >> 1);
      XorFrom(Value(x), Value(y), Value(Flip(x, y)));
    } else {
      XorOfZero();
    }
  }

  // The machine's exclusive or of two bytes.
  lemma ByteXor(x: bv8, y: bv8)
    ensures Xor(Value(x), Value(y)) == Value(x ^ y)
  {
    hide Xor, Value;
    FlipIsXor(x, y);
  }

  lemma XorOfZero()
    ensures Xor(0, 0) == 0
  {
  }

  // A byte leaves the bits above it as they are; `high` is q times 2^k.
  lemma {:induction false} XorLow(q: nat, high: nat, r: nat, b: nat, k: nat)
    requires high == q * Pow2(k) && r < Pow2(k) && b < Pow2(k)
    ensures Xor(high + r, b) == high + Xor(r, b)
    decreases k
  {
    if k == 0 {
      XorZero(q);
    } else {
      var half := q * Pow2(k - 1);
      assert high == 2 * half;
      assert r / 2 < Pow2(k - 1) && b / 2 < Pow2(k - 1);
      hide Xor, Pow2;
      XorLow(q, half, r / 2, b / 2, k - 1);
      XorLowStep(high, half, r, b);
    }
  }

  lemma XorLowStep(high: nat, half: nat, r: nat, b: nat)
    requires high == 2 * half && Xor(half + r / 2, b / 2) == half + Xor(r / 2, b / 2)
    ensures Xor(high + r, b) == high + Xor(r, b)
  {
    hide Xor;
    XorStep(high + r, b);
    XorStep(r, b);
    assert (high + r) / 2 == half + r / 2 && (high + r) % 2 == r % 2;
  }

  lemma {:induction false} XorZero(a: nat)
    ensures Xor(a, 0) == a
  {
    if a > 0 {
      XorStep(a, 0);
      hide Xor;
      XorZero(a / 2);
    }
  }

  lemma ByteBits(k: nat)
    requires k == 8
    ensures Pow2(k) == 0x100
  {
    assert Pow2(k - 8) == 1 && Pow2(k - 7) == 2 && Pow2(k - 6) == 4 && Pow2(k - 5) == 8 && Pow2(k - 4) == 16;
    hide Pow2;
    Doubled(k - 4, 16);
  }

  lemma FlipsLow(q: nat, high: nat, x: bv8, y: bv8)
    requires high == q * 0x100
    ensures Xor(high + Value(x), Value(y)) == high + Value(x ^ y)
  {
    var k := 8;
    ByteBits(k);
    assert Value(x) < 0x100 && Value(y) < 0x100;
    hide Xor, Pow2, Value;
    XorLow(q, high, Value(x), Value(y), k);
    ByteXor(x, y);
  }

  // One byte of FNV-1a: the machine's exclusive or on the low byte of the state, then the product with the prime.
  lemma MixLow(h: Word, b: Byte, q: nat, x: bv8, y: bv8)
    requires h == q * 0x100 + Value(x) && b == Value(y)
    ensures Mix(h, b) == (q * 0x100 + Value(x ^ y)) * 0x100_0000_01b3 % 0x1_0000_0000_0000_0000
  {
    hide Xor, Value;
    FlipsLow(q, q * 0x100, x, y);
  }

  lemma FirstFlip()
    ensures Value(0x25) == 0x25 && Value(0x61) == 0x61 && Value(0x25 ^ 0x61) == 0x44
  {
  }

  lemma HashNothing(h: Word)
    ensures Hash(h, []) == h
  {
  }

  // Published test values of 64-bit FNV-1a: the empty text and "a".
  lemma PublishedValues()
    ensures Hash(OFFSET_BASIS, []) == 0xcbf2_9ce4_8422_2325
    ensures Hash(OFFSET_BASIS, [0x61]) == 0xaf63_dc4c_8601_ec8c
  {
    hide Hash, Mix, Value;
    FirstFlip();
    MixLow(0xcbf2_9ce4_8422_2325, 0x61, 0xcb_f29c_e484_2223, 0x25, 0x61);
    HashOne(OFFSET_BASIS, 0x61);
    HashNothing(OFFSET_BASIS);
  }

  // ---------------------------------------------------------------- the stream of an entry

  lemma {:induction false} LeAt(n: nat, width: nat, i: nat)
    requires i < width
    ensures Le(n, width)[i] == n / Pow256(i) % 0x100
    decreases width
  {
    if i > 0 {
      LeAt(n / 0x100, width - 1, i - 1);
      ByteOfQuotient(n, Pow256(i - 1), Pow256(i));
    }
  }

  lemma ByteOfQuotient(n: nat, p: nat, more: nat)
    requires p > 0 && more == 0x100 * p
    ensures n / more == n / 0x100 / p
  {
    var q := n / 0x100 / p;
    var r := n / 0x100 - q * p;
    assert n == q * more + (0x100 * r + n % 0x100) by { assert n == 0x100 * (q * p + r) + n % 0x100; }
    QuotientIs(n, more, q, 0x100 * r + n % 0x100);
  }

  // A length or an id, low byte first, standing at p.
  ghost predicate NumberAt(bytes: seq<Byte>, p: nat, n: nat, width: nat) {
    p + width <= |bytes| && forall i :: 0 <= i < width ==> bytes[p + i] == n / Pow256(i) % 0x100
  }

  ghost predicate TextAt(bytes: seq<Byte>, p: nat, text: seq<Byte>) {
    p + |text| <= |bytes| && bytes[p..p + |text|] == text
  }

  lemma NumberHere(before: seq<Byte>, n: nat, width: nat, after: seq<Byte>)
    ensures NumberAt(before + Le(n, width) + after, |before|, n, width)
  {
    var bytes := before + Le(n, width) + after;
    forall i | 0 <= i < width
      ensures bytes[|before| + i] == n / Pow256(i) % 0x100
    {
      assert bytes[|before| + i] == Le(n, width)[i];
      LeAt(n, width, i);
    }
  }

  lemma TextHere(before: seq<Byte>, text: seq<Byte>, after: seq<Byte>)
    ensures TextAt(before + text + after, |before|, text)
  {
  }

  // An entry is written as its id in two bytes, the two names each after its length in eight, and a byte for each flag.
  lemma WriteIs(e: Entry)
    ensures var b, bytes := e.builtin, Write(e); var n, m := |b.name|, |b.overrideName|;
      && |bytes| == n + m + 20
      && NumberAt(bytes, 0, e.id, 2)
      && NumberAt(bytes, 2, n, 8) && TextAt(bytes, 10, b.name)
      && NumberAt(bytes, n + 10, m, 8) && TextAt(bytes, n + 18, b.overrideName)
      && bytes[n + m + 18] == (if b.implemented then 1 else 0)
      && bytes[n + m + 19] == (if b.exposed then 1 else 0)
  {
    hide Le, NumberAt, TextAt;
    var b, bytes := e.builtin, Write(e);
    var id, ln, lm := Le(e.id, 2), Le(|b.name|, 8), Le(|b.overrideName|, 8);
    var flags := Flag(b.implemented) + Flag(b.exposed);
    assert bytes == [] + id + (ln + b.name + lm + b.overrideName + flags);
    NumberHere([], e.id, 2, ln + b.name + lm + b.overrideName + flags);
    assert bytes == id + ln + (b.name + lm + b.overrideName + flags);
    NumberHere(id, |b.name|, 8, b.name + lm + b.overrideName + flags);
    assert bytes == (id + ln) + b.name + (lm + b.overrideName + flags);
    TextHere(id + ln, b.name, lm + b.overrideName + flags);
    assert bytes == (id + ln + b.name) + lm + (b.overrideName + flags);
    NumberHere(id + ln + b.name, |b.overrideName|, 8, b.overrideName + flags);
    assert bytes == (id + ln + b.name + lm) + b.overrideName + flags;
    TextHere(id + ln + b.name + lm, b.overrideName, flags);
  }

  // The fingerprint of a program that calls one builtin is the hash of that builtin's entry.
  lemma SignatureOfOne(id: Id, table: seq<Builtin>)
    ensures Signature([id], table)
         == if id < |table| then Some(Hash(OFFSET_BASIS, Write(Entry(id, table[id])))) else None
  {
    hide Write, Hash;
    assert [id][1..] == [] && Sort([id]) == [id];
    if id < |table| {
      var e := Entry(id, table[id]);
      assert Entries([id], table) == [e];
      hide Stream;
      StreamOne(e);
    } else {
      assert [id][0] == id;
    }
  }

}

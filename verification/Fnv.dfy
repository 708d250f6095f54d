/**
 FNV-1a over bytes, as program fingerprints use it: a 64-bit state, exclusive or with each byte, wrapping
 multiplication. Bytes and words are numbers; exclusive or is spelled out bit by bit.
 */
module Fnv {

  import opened Prelude

  type Byte = b: nat | b < 0x100

  type Word = w: nat | w < 0x1_0000_0000_0000_0000

  const OFFSET_BASIS: Word := 0xcbf2_9ce4_8422_2325
  const PRIME: nat := 0x100_0000_01b3

  // ---------------------------------------------------------------- one byte

  // Exclusive or, from the lowest bit up.
  function Xor(a: nat, b: nat): nat
    decreases a + b
  {
    if a == 0 && b == 0 then 0 else 2 * Xor(a / 2, b / 2) + (a % 2 + b % 2) % 2
  }

  lemma XorStep(a: nat, b: nat)
    ensures Xor(a, b) == 2 * Xor(a / 2, b / 2) + (a % 2 + b % 2) % 2
  {
  }

  lemma Bits(y: nat, d: nat)
    requires d < 2
    ensures (2 * y + d) / 2 == y && (2 * y + d) % 2 == d
  {
  }

  lemma ParityBack(p: nat, q: nat)
    requires p < 2 && q < 2
    ensures ((p + q) % 2 + q) % 2 == p
  {
  }

  // Exclusive or with the same number twice gives the first one back.
  lemma {:induction false} XorUndone(a: nat, b: nat)
    ensures Xor(Xor(a, b), b) == a
    decreases a + b
  {
    if a != 0 || b != 0 {
      hide Xor;
      var x, y, d := Xor(a, b), Xor(a / 2, b / 2), (a % 2 + b % 2) % 2;
      XorStep(a, b);
      Bits(y, d);
      assert x / 2 == y && x % 2 == d;
      XorStep(x, b);
      ParityBack(a % 2, b % 2);
      XorUndone(a / 2, b / 2);
      assert Xor(x, b) == 2 * (a / 2) + a % 2;
    }
  }

  lemma {:induction false} XorCommutes(a: nat, b: nat)
    ensures Xor(a, b) == Xor(b, a)
    decreases a + b
  {
    if a != 0 || b != 0 { XorCommutes(a / 2, b / 2); }
  }

  lemma {:induction false} XorBounded(a: nat, b: nat, bits: nat)
    requires a < Pow2(bits) && b < Pow2(bits)
    ensures Xor(a, b) < Pow2(bits)
    decreases bits
  {
    if bits > 0 { XorBounded(a / 2, b / 2, bits - 1); }
  }

  lemma {:induction false} Pow2Adds(a: nat, b: nat)
    ensures Pow2(a + b) == Pow2(a) * Pow2(b)
    decreases a
  {
    if a > 0 { Pow2Adds(a - 1, b); }
  }

  lemma Doubled(a: nat, n: nat)
    requires Pow2(a) == n
    ensures Pow2(a + a) == n * n
  {
    hide Pow2;
    Pow2Adds(a, a);
  }

  lemma WordBits(bits: nat)
    requires bits == 64
    ensures Pow2(bits) == 0x1_0000_0000_0000_0000
  {
    var four := bits / 16;
    assert Pow2(four - 4) == 1 && Pow2(four - 3) == 2 && Pow2(four - 2) == 4 && Pow2(four - 1) == 8;
    assert Pow2(four) == 16;
    hide Pow2;
    Doubled(four, 16);
    Doubled(four + four, 0x100);
    Doubled(four + four + (four + four), 0x1_0000);
    Doubled(four + four + (four + four) + (four + four + (four + four)), 0x1_0000_0000);
  }

  lemma XorIsWord(h: Word, b: Byte)
    ensures Xor(h, b) < 0x1_0000_0000_0000_0000
  {
    var bits := 64;
    WordBits(bits);
    XorBounded(h, b, bits);
  }

  function XorByte(h: Word, b: Byte): Word {
    XorIsWord(h, b);
    Xor(h, b)
  }

  function Times(h: Word): Word {
    h * PRIME % 0x1_0000_0000_0000_0000
  }

  function Mix(h: Word, b: Byte): Word {
    Times(XorByte(h, b))
  }

  function Hash(h: Word, bytes: seq<Byte>): Word
    decreases |bytes|
  {
    if bytes == [] then h else Hash(Mix(h, bytes[0]), bytes[1..])
  }

  // ---------------------------------------------------------------- every step can be undone

  function Untimes(h: Word): Word {
    h * 0xce96_5057_aff6_957b % 0x1_0000_0000_0000_0000
  }

  // The prime has an inverse: their product is one more than a multiple of 2^64.
  lemma TimesUndone(x: Word)
    ensures Untimes(Times(x)) == x
  {
    var n: int := x;
    var q: int := n * PRIME / 0x1_0000_0000_0000_0000;
    var r: int := Times(x);
    assert r == n * 0x100_0000_01b3 - q * 0x1_0000_0000_0000_0000;
    SameRemainder(r * 0xce96_5057_aff6_957b, 0xce_9650_590f * n - 0xce96_5057_aff6_957b * q, x);
  }

  lemma SameRemainder(n: int, q: int, x: Word)
    requires n == x + 0x1_0000_0000_0000_0000 * q
    ensures n % 0x1_0000_0000_0000_0000 == x
  {
  }

  function Unmix(h: Word, b: Byte): Word {
    XorByte(Untimes(h), b)
  }

  lemma MixUndone(h: Word, b: Byte)
    ensures Unmix(Mix(h, b), b) == h
  {
    TimesUndone(XorByte(h, b));
    XorUndone(h, b);
  }

  // From one state, different bytes lead to different states.
  lemma MixSpreads(h: Word, b: Byte, c: Byte)
    ensures Mix(h, b) == Mix(h, c) <==> b == c
  {
    if Mix(h, b) == Mix(h, c) {
      TimesUndone(XorByte(h, b));
      TimesUndone(XorByte(h, c));
      assert Xor(h, b) == Xor(h, c);
      XorCommutes(h, b);
      XorCommutes(h, c);
      XorUndone(b, h);
      XorUndone(c, h);
    }
  }

  // Different states stay different over the same bytes.
  lemma {:induction false} HashApart(h: Word, k: Word, bytes: seq<Byte>)
    ensures Hash(h, bytes) == Hash(k, bytes) <==> h == k
    decreases |bytes|
  {
    if bytes != [] {
      MixUndone(h, bytes[0]);
      MixUndone(k, bytes[0]);
      HashApart(Mix(h, bytes[0]), Mix(k, bytes[0]), bytes[1..]);
    }
  }

  lemma {:induction false} HashJoins(h: Word, a: seq<Byte>, b: seq<Byte>)
    ensures Hash(h, a + b) == Hash(Hash(h, a), b)
    decreases |a|
  {
    hide Mix;
    if a == [] {
      assert a + b == b;
    } else {
      assert (a + b)[0] == a[0] && (a + b)[1..] == a[1..] + b;
      HashJoins(Mix(h, a[0]), a[1..], b);
    }
  }

  lemma HashOne(h: Word, b: Byte)
    ensures Hash(h, [b]) == Mix(h, b)
  {
    hide Mix;
    assert [b][1..] == [];
  }

  // Streams that differ in one byte alone hash differently.
  lemma OneByteMatters(h: Word, before: seq<Byte>, b: Byte, c: Byte, after: seq<Byte>)
    ensures Hash(h, before + [b] + after) == Hash(h, before + [c] + after) <==> b == c
  {
    hide Mix;
    var k := Hash(h, before);
    HashJoins(h, before + [b], after);
    HashJoins(h, before + [c], after);
    HashJoins(h, before, [b]);
    HashJoins(h, before, [c]);
    HashOne(k, b);
    HashOne(k, c);
    MixSpreads(k, b, c);
    HashApart(Mix(k, b), Mix(k, c), after);
  }

  // ---------------------------------------------------------------- the hasher

  class Hasher {
    var state: Word

    constructor ()
      ensures state == OFFSET_BASIS
    {
      state := OFFSET_BASIS;
    }

    method Bytes(bytes: seq<Byte>)
      modifies this
      ensures state == Hash(old(state), bytes)
    {
      hide XorByte;
      hide Times;
      for i := 0 to |bytes|
        invariant Hash(state, bytes[i..]) == Hash(old(state), bytes)
      {
        assert bytes[i..][1..] == bytes[i + 1..];
        state := XorByte(state, bytes[i]);
        state := Times(state);
      }
      assert bytes[|bytes|..] == [];
    }
  }

}

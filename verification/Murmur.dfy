/**
  MurmurHash3_x64_128, the hash that places keys in the table: every mixing step can be undone, so keys of equal
  length that differ in one block only, or in the tail only, never collide.
 */
module Murmur {
  // bit vectors, since the hash works on bits
  type Word = bv64
  type Byte = bv8

  // ----- mixing steps, each with the step that undoes it -----

  function Xor(x: Word, k: Word): Word { x ^ k }

  function Plus(x: Word, k: Word): Word { x + k }

  function Minus(x: Word, k: Word): Word { x - k }

  function Rotl27(x: Word): Word { (x << 27) | (x >> 37) }

  function Rotl37(x: Word): Word { (x << 37) | (x >> 27) }

  function Rotl31(x: Word): Word { (x << 31) | (x >> 33) }

  function Rotl33(x: Word): Word { (x << 33) | (x >> 31) }

  function Shifted(x: Word): Word { x ^ (x >> 33) }

  lemma {:induction false} XorUndone(x: Word, k: Word)
    ensures Xor(Xor(x, k), k) == x && Xor(Xor(x, k), x) == k
  {
    assert (x ^ k) ^ k == x && (x ^ k) ^ x == k;
  }

  lemma {:induction false} MinusSum(x: Word, k: Word)
    ensures Minus(x + k, k) == x
  {
  }

  lemma {:induction false} PlusUndone(x: Word, k: Word)
    ensures Minus(Plus(x, k), k) == x
  {
    hide Minus;
    MinusSum(x, k);
  }

  lemma {:induction false} RotlUndone(x: Word)
    ensures Rotl37(Rotl27(x)) == x && Rotl33(Rotl31(x)) == x && Rotl31(Rotl33(x)) == x
  {
  }

  lemma {:induction false} ShiftedOf(x: Word)
    ensures Shifted(x) == x ^ (x >> 33) && Shifted(x ^ (x >> 33)) == x
  {
  }

  lemma {:induction false} ShiftedUndone(x: Word)
    ensures Shifted(Shifted(x)) == x
  {
    hide Shifted;
    ShiftedOf(x);
  }

  function TimesC1(x: Word): Word { x * 0x87c3_7b91_1142_53d5 }

  /** Multiplication by the inverse modulo 2^64 of the odd constant C1. */
  function OverC1(x: Word): Word { x * 0xa984_09e8_82ce_4d7d }

  lemma {:induction false} OverC1Of(x: Word)
    ensures OverC1(x * 0x87c3_7b91_1142_53d5) == x
  {
  }

  lemma {:induction false} TimesC1Undone(x: Word)
    ensures OverC1(TimesC1(x)) == x
  {
    hide OverC1;
    OverC1Of(x);
  }

  function TimesC2(x: Word): Word { x * 0x4cf5_ad43_2745_937f }

  /** Multiplication by the inverse modulo 2^64 of the odd constant C2. */
  function OverC2(x: Word): Word { x * 0xa81e_14ed_d9de_2c7f }

  lemma {:induction false} OverC2Of(x: Word)
    ensures OverC2(x * 0x4cf5_ad43_2745_937f) == x
  {
  }

  lemma {:induction false} TimesC2Undone(x: Word)
    ensures OverC2(TimesC2(x)) == x
  {
    hide OverC2;
    OverC2Of(x);
  }

  function TimesF1(x: Word): Word { x * 0xff51_afd7_ed55_8ccd }

  /** Multiplication by the inverse modulo 2^64 of the odd constant F1. */
  function OverF1(x: Word): Word { x * 0x4f74_430c_22a5_4005 }

  lemma {:induction false} OverF1Of(x: Word)
    ensures OverF1(x * 0xff51_afd7_ed55_8ccd) == x
  {
  }

  lemma {:induction false} TimesF1Undone(x: Word)
    ensures OverF1(TimesF1(x)) == x
  {
    hide OverF1;
    OverF1Of(x);
  }

  function TimesF2(x: Word): Word { x * 0xc4ce_b9fe_1a85_ec53 }

  /** Multiplication by the inverse modulo 2^64 of the odd constant F2. */
  function OverF2(x: Word): Word { x * 0x9cb4_b2f8_1293_37db }

  lemma {:induction false} OverF2Of(x: Word)
    ensures OverF2(x * 0xc4ce_b9fe_1a85_ec53) == x
  {
  }

  lemma {:induction false} TimesF2Undone(x: Word)
    ensures OverF2(TimesF2(x)) == x
  {
    hide OverF2;
    OverF2Of(x);
  }

  function Scaled(x: Word, k: Word): Word { x * 5 + k }

  function Unscaled(x: Word, k: Word): Word { (x - k) * 0xcccc_cccc_cccc_cccd }

  lemma {:induction false} UnscaledOf(x: Word, k: Word)
    ensures Unscaled(x * 5 + k, k) == x
  {
  }

  lemma {:induction false} ScaledUndone(x: Word, k: Word)
    ensures Unscaled(Scaled(x, k), k) == x
  {
    hide Unscaled;
    UnscaledOf(x, k);
  }

  /** fmix64. */
  function Fmix(k: Word): Word { Shifted(TimesF2(Shifted(TimesF1(Shifted(k))))) }

  function Unfmix(h: Word): Word { Shifted(OverF1(Shifted(OverF2(Shifted(h))))) }

  /** The finalisation mix can be undone. */
  lemma {:induction false} FmixUndone(k: Word)
    ensures Unfmix(Fmix(k)) == k
  {
    hide Shifted, TimesF1, TimesF2, OverF1, OverF2;
    var a := Shifted(k);
    var b := Shifted(TimesF1(a));
    ShiftedUndone(TimesF2(b));
    TimesF2Undone(b);
    ShiftedUndone(TimesF1(a));
    TimesF1Undone(a);
    ShiftedUndone(k);
  }

  /** What becomes of the first and of the second word of a block before they go into the state. */
  function Mix1(k: Word): Word { TimesC2(Rotl31(TimesC1(k))) }

  function Mix2(k: Word): Word { TimesC1(Rotl33(TimesC2(k))) }

  function Unmix1(m: Word): Word { OverC1(Rotl33(OverC2(m))) }

  function Unmix2(m: Word): Word { OverC2(Rotl31(OverC1(m))) }

  lemma {:induction false} MixUndone(k: Word)
    ensures Unmix1(Mix1(k)) == k && Unmix2(Mix2(k)) == k
  {
    hide TimesC1, TimesC2, OverC1, OverC2, Rotl31, Rotl33;
    TimesC1Undone(k);
    TimesC2Undone(k);
    RotlUndone(TimesC1(k));
    RotlUndone(TimesC2(k));
    TimesC2Undone(Rotl31(TimesC1(k)));
    TimesC1Undone(Rotl33(TimesC2(k)));
  }

  lemma {:induction false} MixZero()
    ensures Mix1(0) == 0 && Mix2(0) == 0
  {
  }

  // ----- the state through a block, the tail and the end -----

  datatype Pair = Pair(a: Word, b: Word)

  function Block(h: Pair, k: Pair): Pair {
    var a := Scaled(Plus(Rotl27(Xor(h.a, Mix1(k.a))), h.b), 0x52dc_e729);
    Pair(a, Scaled(Plus(Rotl31(Xor(h.b, Mix2(k.b))), a), 0x3849_5ab5))
  }

  /** The state before a block, from the state after it and the block. */
  function Unblock(s: Pair, k: Pair): Pair {
    var b := Xor(Rotl33(Minus(Unscaled(s.b, 0x3849_5ab5), s.a)), Mix2(k.b));
    Pair(Xor(Rotl37(Minus(Unscaled(s.a, 0x52dc_e729), b)), Mix1(k.a)), b)
  }

  /** The block, from the states before and after it. */
  function BlockOf(s: Pair, h: Pair): Pair {
    Pair(Unmix1(Xor(Rotl37(Minus(Unscaled(s.a, 0x52dc_e729), h.b)), h.a)),
         Unmix2(Xor(Rotl33(Minus(Unscaled(s.b, 0x3849_5ab5), s.a)), h.b)))
  }

  lemma {:induction false} BlockUndone(h: Pair, k: Pair)
    ensures Unblock(Block(h, k), k) == h && BlockOf(Block(h, k), h) == k
  {
    hide Scaled, Unscaled, Plus, Minus, Xor, Rotl27, Rotl37, Rotl31, Rotl33, Mix1, Mix2, Unmix1, Unmix2;
    var x, y := Xor(h.a, Mix1(k.a)), Xor(h.b, Mix2(k.b));
    var s := Block(h, k);
    ScaledUndone(Plus(Rotl31(y), s.a), 0x3849_5ab5);
    PlusUndone(Rotl31(y), s.a);
    RotlUndone(y);
    XorUndone(h.b, Mix2(k.b));
    ScaledUndone(Plus(Rotl27(x), h.b), 0x52dc_e729);
    PlusUndone(Rotl27(x), h.b);
    RotlUndone(x);
    XorUndone(h.a, Mix1(k.a));
    MixUndone(k.a);
    MixUndone(k.b);
  }

  function Tail(h: Pair, k: Pair): Pair { Pair(Xor(h.a, Mix1(k.a)), Xor(h.b, Mix2(k.b))) }

  lemma {:induction false} TailUndone(h: Pair, k: Pair)
    ensures Tail(Tail(h, k), k) == h
    ensures Pair(Unmix1(Xor(Tail(h, k).a, h.a)), Unmix2(Xor(Tail(h, k).b, h.b))) == k
  {
    hide Xor, Mix1, Mix2, Unmix1, Unmix2;
    XorUndone(h.a, Mix1(k.a));
    XorUndone(h.b, Mix2(k.b));
    MixUndone(k.a);
    MixUndone(k.b);
  }

  function Summed(h: Pair): Pair { var a := Plus(h.a, h.b); Pair(a, Plus(h.b, a)) }

  function Unsummed(h: Pair): Pair { var b := Minus(h.b, h.a); Pair(Minus(h.a, b), b) }

  lemma {:induction false} SummedUndone(h: Pair)
    ensures Unsummed(Summed(h)) == h
  {
    hide Plus, Minus;
    PlusUndone(h.a, h.b);
    PlusUndone(h.b, Plus(h.a, h.b));
  }

  function Final(h: Pair, len: Word): Pair {
    var s := Summed(Pair(Xor(h.a, len), Xor(h.b, len)));
    Summed(Pair(Fmix(s.a), Fmix(s.b)))
  }

  lemma {:induction false} FinalOneToOne(h: Pair, g: Pair, len: Word)
    requires Final(h, len) == Final(g, len)
    ensures h == g
  {
    hide Xor, Summed, Unsummed, Fmix, Unfmix;
    var s, t := Summed(Pair(Xor(h.a, len), Xor(h.b, len))), Summed(Pair(Xor(g.a, len), Xor(g.b, len)));
    SummedUndone(Pair(Fmix(s.a), Fmix(s.b)));
    SummedUndone(Pair(Fmix(t.a), Fmix(t.b)));
    FmixUndone(s.a);
    FmixUndone(s.b);
    FmixUndone(t.a);
    FmixUndone(t.b);
    SummedUndone(Pair(Xor(h.a, len), Xor(h.b, len)));
    SummedUndone(Pair(Xor(g.a, len), Xor(g.b, len)));
    XorUndone(h.a, len);
    XorUndone(h.b, len);
    XorUndone(g.a, len);
    XorUndone(g.b, len);
  }

  // ----- bytes of the key -----

  /** Eight bytes as a word, the lowest byte first. */
  function Packed(b0: Byte, b1: Byte, b2: Byte, b3: Byte, b4: Byte, b5: Byte, b6: Byte, b7: Byte): Word {
    (b7 as Word << 56) ^ (b6 as Word << 48) ^ (b5 as Word << 40) ^ (b4 as Word << 32)
    ^ (b3 as Word << 24) ^ (b2 as Word << 16) ^ (b1 as Word << 8) ^ (b0 as Word)
  }

  lemma {:induction false} PackedOneToOne(a0: Byte, a1: Byte, a2: Byte, a3: Byte, a4: Byte, a5: Byte, a6: Byte, a7: Byte,
                                          b0: Byte, b1: Byte, b2: Byte, b3: Byte, b4: Byte, b5: Byte, b6: Byte, b7: Byte)
    requires Packed(a0, a1, a2, a3, a4, a5, a6, a7) == Packed(b0, b1, b2, b3, b4, b5, b6, b7)
    ensures a0 == b0 && a1 == b1 && a2 == b2 && a3 == b3 && a4 == b4 && a5 == b5 && a6 == b6 && a7 == b7
  {
  }

  function ByteAt(key: seq<Byte>, i: nat): Byte { if i < |key| then key[i] else 0 }

  function WordAt(key: seq<Byte>, i: nat): Word {
    Packed(ByteAt(key, i), ByteAt(key, i + 1), ByteAt(key, i + 2), ByteAt(key, i + 3),
           ByteAt(key, i + 4), ByteAt(key, i + 5), ByteAt(key, i + 6), ByteAt(key, i + 7))
  }

  /** The block of 16 bytes at position i, with zeros beyond the end of the key. */
  function BlockAt(key: seq<Byte>, i: nat): Pair { Pair(WordAt(key, 16 * i), WordAt(key, 16 * i + 8)) }

  lemma {:induction false} WordBytes(a: seq<Byte>, b: seq<Byte>, i: nat, k: nat)
    requires WordAt(a, i) == WordAt(b, i) && i <= k < i + 8
    ensures ByteAt(a, k) == ByteAt(b, k)
  {
    hide Packed, ByteAt;
    PackedOneToOne(ByteAt(a, i), ByteAt(a, i + 1), ByteAt(a, i + 2), ByteAt(a, i + 3),
                   ByteAt(a, i + 4), ByteAt(a, i + 5), ByteAt(a, i + 6), ByteAt(a, i + 7),
                   ByteAt(b, i), ByteAt(b, i + 1), ByteAt(b, i + 2), ByteAt(b, i + 3),
                   ByteAt(b, i + 4), ByteAt(b, i + 5), ByteAt(b, i + 6), ByteAt(b, i + 7));
  }

  lemma {:induction false} BlockBytes(a: seq<Byte>, b: seq<Byte>, p: nat, k: nat)
    requires |a| == |b| && BlockAt(a, p) == BlockAt(b, p) && k < |a| && k / 16 == p
    ensures a[k] == b[k]
  {
    hide WordAt;
    WordBytes(a, b, if k < 16 * p + 8 then 16 * p else 16 * p + 8, k);
  }

  // ----- the hash -----

  function Body(key: seq<Byte>, n: nat, h: Pair): Pair {
    if n == 0 then h else Block(Body(key, n - 1, h), BlockAt(key, n - 1))
  }

  function Hash(key: seq<Byte>, seed: bv32): Pair
    requires |key| < 0x8000_0000
  {
    var n := |key| / 16;
    Final(Tail(Body(key, n, Pair(seed as Word, seed as Word)), BlockAt(key, n)), |key| as Word)
  }

  /** The switch over the last bytes, which falls through from the highest byte down. */
  method TailWords(tail: seq<Byte>) returns (k1: Word, k2: Word)
    requires |tail| < 16
    ensures k1 == WordAt(tail, 0) && k2 == WordAt(tail, 8)
  {
    k1, k2 := 0, 0;
    var n := |tail|;
    if n >= 15 { k2 := k2 ^ (tail[14] as Word << 48); }
    if n >= 14 { k2 := k2 ^ (tail[13] as Word << 40); }
    if n >= 13 { k2 := k2 ^ (tail[12] as Word << 32); }
    if n >= 12 { k2 := k2 ^ (tail[11] as Word << 24); }
    if n >= 11 { k2 := k2 ^ (tail[10] as Word << 16); }
    if n >= 10 { k2 := k2 ^ (tail[9] as Word << 8); }
    if n >= 9 { k2 := k2 ^ (tail[8] as Word); }
    if n >= 8 { k1 := k1 ^ (tail[7] as Word << 56); }
    if n >= 7 { k1 := k1 ^ (tail[6] as Word << 48); }
    if n >= 6 { k1 := k1 ^ (tail[5] as Word << 40); }
    if n >= 5 { k1 := k1 ^ (tail[4] as Word << 32); }
    if n >= 4 { k1 := k1 ^ (tail[3] as Word << 24); }
    if n >= 3 { k1 := k1 ^ (tail[2] as Word << 16); }
    if n >= 2 { k1 := k1 ^ (tail[1] as Word << 8); }
    if n >= 1 { k1 := k1 ^ (tail[0] as Word); }
  }

  lemma {:induction false} NoBytes(key: seq<Byte>, i: nat)
    requires i >= |key|
    ensures WordAt(key, i) == 0
  {
  }

  lemma {:induction false} TailAt(key: seq<Byte>, n: nat, i: nat)
    requires n <= |key|
    ensures WordAt(key[n..], i) == WordAt(key, n + i)
  {
    hide Packed;
  }

  lemma {:induction false} XorZero(x: Word)
    ensures Xor(x, 0) == x
  {
  }

  /** The tail of a key goes into the state; words without bytes are left out. */
  method MixTail(key: seq<Byte>, n: nat, h: Pair) returns (r: Pair)
    requires n == |key| / 16
    ensures r == Tail(h, BlockAt(key, n))
  {
    hide WordAt, Xor, Mix1, Mix2;
    var h1, h2 := h.a, h.b;
    var tail := key[16 * n..];
    var k1, k2 := TailWords(tail);
    TailAt(key, 16 * n, 0);
    TailAt(key, 16 * n, 8);
    MixZero();
    XorZero(h1);
    XorZero(h2);
    if |tail| > 8 {
      h2 := Xor(h2, Mix2(k2));
    } else {
      NoBytes(tail, 8);
    }
    if |tail| > 0 {
      h1 := Xor(h1, Mix1(k1));
    } else {
      NoBytes(tail, 0);
    }
    r := Pair(h1, h2);
  }

  /** MurmurHash3_x64_128. */
  method HashKey(key: seq<Byte>, seed: bv32) returns (out: Pair)
    requires |key| < 0x8000_0000
    ensures out == Hash(key, seed)
  {
    hide WordAt, Xor, Plus, Scaled, Rotl27, Rotl31, Rotl33, TimesC1, TimesC2, Fmix, Tail;
    var n := |key| / 16;
    var h1, h2 := seed as Word, seed as Word;
    for i := 0 to n
      invariant Pair(h1, h2) == Body(key, i, Pair(seed as Word, seed as Word))
    {
      var k1, k2 := WordAt(key, 16 * i), WordAt(key, 16 * i + 8);
      k1 := TimesC1(k1);
      k1 := Rotl31(k1);
      k1 := TimesC2(k1);
      h1 := Xor(h1, k1);
      h1 := Rotl27(h1);
      h1 := Plus(h1, h2);
      h1 := Scaled(h1, 0x52dc_e729);
      k2 := TimesC2(k2);
      k2 := Rotl33(k2);
      k2 := TimesC1(k2);
      h2 := Xor(h2, k2);
      h2 := Rotl31(h2);
      h2 := Plus(h2, h1);
      h2 := Scaled(h2, 0x3849_5ab5);
    }
    var h := MixTail(key, n, Pair(h1, h2));
    h1, h2 := h.a, h.b;
    h1, h2 := Xor(h1, |key| as Word), Xor(h2, |key| as Word);
    h1 := Plus(h1, h2);
    h2 := Plus(h2, h1);
    h1 := Fmix(h1);
    h2 := Fmix(h2);
    h1 := Plus(h1, h2);
    h2 := Plus(h2, h1);
    out := Pair(h1, h2);
  }

  // ----- no collisions within one block -----

  lemma {:induction false} SameBody(a: seq<Byte>, b: seq<Byte>, n: nat, h: Pair)
    requires forall i :: 0 <= i < n ==> BlockAt(a, i) == BlockAt(b, i)
    ensures Body(a, n, h) == Body(b, n, h)
  {
    hide Block, BlockAt;
    if n > 0 { SameBody(a, b, n - 1, h); }
  }

  /** States that agree after n blocks agreed before the blocks the keys share. */
  lemma {:induction false} BodyBack(a: seq<Byte>, b: seq<Byte>, m: nat, n: nat, h: Pair)
    requires m <= n && Body(a, n, h) == Body(b, n, h)
    requires forall i :: m <= i < n ==> BlockAt(a, i) == BlockAt(b, i)
    ensures Body(a, m, h) == Body(b, m, h)
    decreases n
  {
    hide Block, BlockAt, Unblock, BlockOf;
    if m < n {
      BlockUndone(Body(a, n - 1, h), BlockAt(a, n - 1));
      BlockUndone(Body(b, n - 1, h), BlockAt(b, n - 1));
      BodyBack(a, b, m, n - 1, h);
    }
  }

  lemma {:induction false} SameBlock(a: seq<Byte>, b: seq<Byte>, i: nat)
    requires |a| == |b| && forall k :: 0 <= k < |a| && k / 16 == i ==> a[k] == b[k]
    ensures BlockAt(a, i) == BlockAt(b, i)
  {
    hide Packed;
    forall k | 16 * i <= k < 16 * i + 16 ensures ByteAt(a, k) == ByteAt(b, k) {
    }
  }

  /** From equal states after the tail, the blocks at the one place where the keys may differ. */
  lemma {:induction false} BlockFromTail(a: seq<Byte>, b: seq<Byte>, p: nat, n: nat, h: Pair)
    requires p <= n && Tail(Body(a, n, h), BlockAt(a, n)) == Tail(Body(b, n, h), BlockAt(b, n))
    requires forall i :: 0 <= i <= n && i != p ==> BlockAt(a, i) == BlockAt(b, i)
    ensures BlockAt(a, p) == BlockAt(b, p)
  {
    hide Block, BlockAt, Unblock, BlockOf, Tail, Body, Xor, Unmix1, Unmix2;
    TailUndone(Body(a, n, h), BlockAt(a, n));
    TailUndone(Body(b, n, h), BlockAt(b, n));
    SameBody(a, b, p, h);
    if p < n {
      BodyBack(a, b, p + 1, n, h);
      BodyNext(a, p, h);
      BodyNext(b, p, h);
      BlockUndone(Body(a, p, h), BlockAt(a, p));
      BlockUndone(Body(b, p, h), BlockAt(b, p));
    }
  }

  lemma {:induction false} BlockFromHash(a: seq<Byte>, b: seq<Byte>, p: nat, seed: bv32)
    requires |a| == |b| < 0x8000_0000 && p <= |a| / 16 && Hash(a, seed) == Hash(b, seed)
    requires forall i :: 0 <= i <= |a| / 16 && i != p ==> BlockAt(a, i) == BlockAt(b, i)
    ensures BlockAt(a, p) == BlockAt(b, p)
  {
    hide BlockAt, Tail, Final, Body;
    var n, h := |a| / 16, Pair(seed as Word, seed as Word);
    FinalOneToOne(Tail(Body(a, n, h), BlockAt(a, n)), Tail(Body(b, n, h), BlockAt(b, n)), |a| as Word);
    BlockFromTail(a, b, p, n, h);
  }

  lemma {:induction false} BodyNext(key: seq<Byte>, n: nat, h: Pair)
    ensures Body(key, n + 1, h) == Block(Body(key, n, h), BlockAt(key, n))
  {
  }

  /** For every seed, keys of equal length that differ within one block of 16 bytes only, or within the tail only, have
      different hashes. */
  lemma {:induction false} NoCollision(a: seq<Byte>, b: seq<Byte>, p: nat, seed: bv32)
    requires |a| == |b| < 0x8000_0000 && p <= |a| / 16
    requires forall k :: 0 <= k < |a| && k / 16 != p ==> a[k] == b[k]
    ensures Hash(a, seed) == Hash(b, seed) <==> a == b
  {
    hide BlockAt, Hash;
    if Hash(a, seed) == Hash(b, seed) {
      forall i | 0 <= i <= |a| / 16 && i != p ensures BlockAt(a, i) == BlockAt(b, i) { SameBlock(a, b, i); }
      BlockFromHash(a, b, p, seed);
      forall k | 0 <= k < |a| ensures a[k] == b[k] {
        if k / 16 == p { BlockBytes(a, b, p, k); }
      }
    }
  }

  /** Distinct keys of the same length up to 16 bytes never collide. */
  lemma {:induction false} ShortKeys(a: seq<Byte>, b: seq<Byte>, seed: bv32)
    requires |a| == |b| <= 16 && a != b
    ensures Hash(a, seed) != Hash(b, seed)
  {
    hide Hash;
    NoCollision(a, b, 0, seed);
  }

  // ----- values of the hash -----

  const HELLO: seq<Byte> := [0x68, 0x65, 0x6c, 0x6c, 0x6f]

  lemma {:induction false} OfFewBytesWords()
    ensures |HELLO| == 5
    ensures WordAt(HELLO, 0) == 0x0000_006f_6c6c_6568 && WordAt(HELLO, 8) == 0
  {
  }

  lemma {:induction false} OfFewBytesSteps()
    ensures Tail(Pair(0, 0), Pair(0x0000_006f_6c6c_6568, 0))
            == Pair(0x8c3f_01c9_e775_11c7, 0)
    ensures Final(Pair(0x8c3f_01c9_e775_11c7, 0), 5)
            == Pair(0xcbd8_a7b3_41bd_9b02, 0x5b1e_906a_48ae_1d19)
  {
  }

  /** A key of five bytes. */
  lemma {:induction false} OfFewBytes()
    ensures |HELLO| < 0x8000_0000 && Hash(HELLO, 0)
            == Pair(0xcbd8_a7b3_41bd_9b02, 0x5b1e_906a_48ae_1d19)
  {
    hide Block, Tail, Final, WordAt;
    OfFewBytesWords();
    OfFewBytesSteps();
  }

  const ONE_BLOCK: seq<Byte> :=
    [0x61, 0x62, 0x63, 0x64, 0x65, 0x66, 0x67, 0x68, 0x69, 0x6a, 0x6b, 0x6c, 0x6d, 0x6e, 0x6f, 0x70]

  lemma {:induction false} OfOneBlockWords()
    ensures |ONE_BLOCK| == 16
    ensures WordAt(ONE_BLOCK, 0) == 0x6867_6665_6463_6261 && WordAt(ONE_BLOCK, 8) == 0x706f_6e6d_6c6b_6a69
    ensures WordAt(ONE_BLOCK, 16) == 0 && WordAt(ONE_BLOCK, 24) == 0
  {
  }

  lemma {:induction false} OfOneBlockSteps()
    ensures Block(Pair(1, 1), Pair(0x6867_6665_6463_6261, 0x706f_6e6d_6c6b_6a69))
            == Pair(0x95e9_186c_81c1_f87c, 0xd35c_c0aa_0ab5_87a2)
    ensures Tail(Pair(0x95e9_186c_81c1_f87c, 0xd35c_c0aa_0ab5_87a2), Pair(0, 0))
            == Pair(0x95e9_186c_81c1_f87c, 0xd35c_c0aa_0ab5_87a2)
    ensures Final(Pair(0x95e9_186c_81c1_f87c, 0xd35c_c0aa_0ab5_87a2), 16)
            == Pair(0x5e10_a4a0_eb1c_64ef, 0x0207_d437_e44c_438d)
  {
  }

  /** A key of one block and nothing else, with a seed. */
  lemma {:induction false} OfOneBlock()
    ensures |ONE_BLOCK| < 0x8000_0000 && Hash(ONE_BLOCK, 1)
            == Pair(0x5e10_a4a0_eb1c_64ef, 0x0207_d437_e44c_438d)
  {
    hide Block, Tail, Final, WordAt;
    OfOneBlockWords();
    OfOneBlockSteps();
    assert Body(ONE_BLOCK, 1, Pair(1, 1))
           == Pair(0x95e9_186c_81c1_f87c, 0xd35c_c0aa_0ab5_87a2);
  }

  const LONG_TAIL: seq<Byte> := seq(31, _ => 0x61)

  lemma {:induction false} OfLongTailWords()
    ensures |LONG_TAIL| == 31
    ensures WordAt(LONG_TAIL, 0) == 0x6161_6161_6161_6161 && WordAt(LONG_TAIL, 8) == 0x6161_6161_6161_6161
    ensures WordAt(LONG_TAIL, 16) == 0x6161_6161_6161_6161 && WordAt(LONG_TAIL, 24) == 0x0061_6161_6161_6161
  {
  }

  lemma {:induction false} OfLongTailSteps()
    ensures Block(Pair(0x0000_0000_9747_b28c, 0x0000_0000_9747_b28c), Pair(0x6161_6161_6161_6161, 0x6161_6161_6161_6161))
            == Pair(0x8eed_eecf_1a52_72fe, 0xf834_72d9_1b45_ed4b)
    ensures Tail(Pair(0x8eed_eecf_1a52_72fe, 0xf834_72d9_1b45_ed4b), Pair(0x6161_6161_6161_6161, 0x0061_6161_6161_6161))
            == Pair(0x6e8d_8e72_a14c_eb0c, 0x926a_af2a_bdd0_e97f)
    ensures Final(Pair(0x6e8d_8e72_a14c_eb0c, 0x926a_af2a_bdd0_e97f), 31)
            == Pair(0xf38f_abf8_f6ca_b4ef, 0xf057_40e9_c8c5_ecea)
  {
  }

  /** A block and the longest tail, with a seed. */
  lemma {:induction false} OfLongTail()
    ensures |LONG_TAIL| < 0x8000_0000 && Hash(LONG_TAIL, 0x0000_0000_9747_b28c)
            == Pair(0xf38f_abf8_f6ca_b4ef, 0xf057_40e9_c8c5_ecea)
  {
    hide Block, Tail, Final, WordAt;
    OfLongTailWords();
    OfLongTailSteps();
    assert Body(LONG_TAIL, 1, Pair(0x0000_0000_9747_b28c, 0x0000_0000_9747_b28c))
           == Pair(0x8eed_eecf_1a52_72fe, 0xf834_72d9_1b45_ed4b);
  }

  const TWO_BLOCKS: seq<Byte> := seq(42, i => if i < 16 then 0x61 else 0x7a)

  lemma {:induction false} OfTwoBlocksWords()
    ensures |TWO_BLOCKS| == 42
    ensures WordAt(TWO_BLOCKS, 0) == 0x6161_6161_6161_6161 && WordAt(TWO_BLOCKS, 8) == 0x6161_6161_6161_6161
    ensures WordAt(TWO_BLOCKS, 16) == 0x7a7a_7a7a_7a7a_7a7a && WordAt(TWO_BLOCKS, 24) == 0x7a7a_7a7a_7a7a_7a7a
    ensures WordAt(TWO_BLOCKS, 32) == 0x7a7a_7a7a_7a7a_7a7a && WordAt(TWO_BLOCKS, 40) == 0x7a7a
  {
  }

  lemma {:induction false} OfTwoBlocksSteps()
    ensures Block(Pair(0x0000_0000_dead_beef, 0x0000_0000_dead_beef), Pair(0x6161_6161_6161_6161, 0x6161_6161_6161_6161))
            == Pair(0x97e3_fe21_5750_b0ed, 0xad01_c9cb_cc3d_22f6)
    ensures Block(Pair(0x97e3_fe21_5750_b0ed, 0xad01_c9cb_cc3d_22f6), Pair(0x7a7a_7a7a_7a7a_7a7a, 0x7a7a_7a7a_7a7a_7a7a))
            == Pair(0x2229_efa1_816c_9b43, 0x3e86_71d0_ef48_ca56)
    ensures Tail(Pair(0x2229_efa1_816c_9b43, 0x3e86_71d0_ef48_ca56), Pair(0x7a7a_7a7a_7a7a_7a7a, 0x7a7a))
            == Pair(0x1793_aa0b_ec50_ef89, 0x1133_95df_a8b9_e80d)
    ensures Final(Pair(0x1793_aa0b_ec50_ef89, 0x1133_95df_a8b9_e80d), 42)
            == Pair(0x93ff_67df_a0c9_57d0, 0x99ca_f1cf_dfe3_b330)
  {
  }

  /** Two different blocks and a tail of more than eight bytes, with a seed. */
  lemma {:induction false} OfTwoBlocks()
    ensures |TWO_BLOCKS| < 0x8000_0000 && Hash(TWO_BLOCKS, 0x0000_0000_dead_beef)
            == Pair(0x93ff_67df_a0c9_57d0, 0x99ca_f1cf_dfe3_b330)
  {
    hide Block, Tail, Final, WordAt;
    OfTwoBlocksWords();
    OfTwoBlocksSteps();
    assert Body(TWO_BLOCKS, 1, Pair(0x0000_0000_dead_beef, 0x0000_0000_dead_beef))
           == Pair(0x97e3_fe21_5750_b0ed, 0xad01_c9cb_cc3d_22f6);
    assert Body(TWO_BLOCKS, 2, Pair(0x0000_0000_dead_beef, 0x0000_0000_dead_beef))
           == Pair(0x2229_efa1_816c_9b43, 0x3e86_71d0_ef48_ca56);
  }
}

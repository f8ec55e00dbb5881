/**
  Decoding of Diameter messages (RFC 6733): the bit-field extractor, and the walk over the attribute-value pairs (AVPs).
 */
module Diameters {
  import opened Arithmetic
  import opened Bytes

  const DWORD: nat := 0x1_0000_0000

  // ----- what a bit field is -----

  /** Bit i of the buffer, the highest bit of each octet first. */
  function BitAt(buf: seq<byte>, i: nat): nat
    requires i < 8 * |buf|
  {
    buf[i / 8] / Pow2(7 - i % 8) % 2
  }

  /** The big-endian value of the len bits from bit `from` on. */
  function Slice(buf: seq<byte>, from: nat, len: nat): nat
    requires from + len <= 8 * |buf|
  {
    if len == 0 then 0 else 2 * Slice(buf, from, len - 1) + BitAt(buf, from + len - 1)
  }

  lemma {:induction false} SliceBound(buf: seq<byte>, from: nat, len: nat)
    requires from + len <= 8 * |buf|
    ensures Slice(buf, from, len) < Pow2(len)
  {
    if len > 0 { SliceBound(buf, from, len - 1); }
  }

  lemma {:induction false} Pow2Sum(a: nat, b: nat)
    ensures Pow2(a + b) == Pow2(a) * Pow2(b)
  {
    if b > 0 {
      Pow2Sum(a, b - 1);
      Doubled(Pow2(a), Pow2(b - 1));
    }
  }

  lemma {:induction false} Doubled(x: nat, p: nat)
    ensures x * (2 * p) == 2 * (x * p)
  {
  }

  /** A field is its upper part shifted over its lower part. */
  lemma {:induction false} SliceSplit(buf: seq<byte>, from: nat, a: nat, b: nat)
    requires from + a + b <= 8 * |buf|
    ensures Slice(buf, from, a + b) == Slice(buf, from, a) * Pow2(b) + Slice(buf, from + a, b)
  {
    hide BitAt;
    if b > 0 {
      SliceSplit(buf, from, a, b - 1);
      Doubled(Slice(buf, from, a), Pow2(b - 1));
    }
  }

  lemma {:induction false} DivTwice(b: nat, m: nat)
    requires m > 0
    ensures b / (2 * m) == b / m / 2
  {
    DivNat(b, m);
    var q: nat, r := b / m, b % m;
    assert b == q * m + r;
    var h := q / 2;
    TimesTwo(h, m);
    if q % 2 == 0 {
      DivUnique(b, 2 * m, h, r);
    } else {
      DivUnique(b, 2 * m, h, m + r);
    }
  }

  lemma {:induction false} OctetPart(buf: seq<byte>, j: nat, k: nat)
    requires j < |buf| && k <= 8
    ensures Slice(buf, 8 * j, k) == buf[j] / Pow2(8 - k)
  {
    if k == 0 {
      assert Pow2(8) == 256;
    } else {
      OctetPart(buf, j, k - 1);
      DivTwice(buf[j], Pow2(8 - k));
      assert (8 * j + k - 1) / 8 == j && (8 * j + k - 1) % 8 == k - 1;
      assert 8 - (k - 1) == (8 - k) + 1;
    }
  }

  function WordAt(buf: seq<byte>, at: nat): (w: nat)
    requires at + 2 <= |buf|
    ensures w < 65536
  {
    var high: nat, low: nat := buf[at], buf[at + 1];
    high * 256 + low
  }

  /** Two octets are a field of 16 bits. */
  lemma {:induction false} WordSlice(buf: seq<byte>, j: nat)
    requires j + 2 <= |buf|
    ensures Slice(buf, 8 * j, 16) == WordAt(buf, j)
  {
    OctetPart(buf, j, 8);
    OctetPart(buf, j + 1, 8);
    SliceSplit(buf, 8 * j, 8, 8);
    assert Pow2(8) == 256 && Pow2(0) == 1;
    hide BitAt, Slice, Pow2;
  }

  /** A field within one word: shift, then mask. */
  lemma {:induction false} FieldInWord(buf: seq<byte>, j: nat, s: nat, len: nat)
    requires j + 2 <= |buf| && s + len <= 16
    ensures WordAt(buf, j) / Pow2(16 - s - len) % Pow2(len) == Slice(buf, 8 * j + s, len)
  {
    hide BitAt, Slice, Pow2, WordAt;
    var rest := 16 - s - len;
    WordSlice(buf, j);
    SliceSplit(buf, 8 * j, s + len, rest);
    SliceBound(buf, 8 * j + s + len, rest);
    DivUnique(WordAt(buf, j), Pow2(rest), Slice(buf, 8 * j, s + len), Slice(buf, 8 * j + s + len, rest));
    SliceSplit(buf, 8 * j, s, len);
    SliceBound(buf, 8 * j + s, len);
    DivUnique(Slice(buf, 8 * j, s + len), Pow2(len), Slice(buf, 8 * j, s), Slice(buf, 8 * j + s, len));
  }

  lemma {:induction false} ModMul(x: nat, p: nat, c: nat)
    ensures (x % DWORD * p + c) % DWORD == (x * p + c) % DWORD
  {
    var q, r := x / DWORD, x % DWORD;
    var y := r * p + c;
    assert x * p + c == (q * p) * DWORD + y by {
      assert x == q * DWORD + r;
      assert x * p == q * DWORD * p + r * p;
      assert q * DWORD * p == (q * p) * DWORD;
    }
    DivUnique(x * p + c, DWORD, q * p + y / DWORD, y % DWORD);
  }

  /** The upper len bits of a word. */
  lemma {:induction false} FieldAtTop(buf: seq<byte>, j: nat, len: nat)
    requires j + 2 <= |buf| && len <= 16
    ensures WordAt(buf, j) / Pow2(16 - len) == Slice(buf, 8 * j, len)
  {
    hide BitAt, Slice, Pow2, WordAt;
    WordSlice(buf, j);
    SliceSplit(buf, 8 * j, len, 16 - len);
    SliceBound(buf, 8 * j + len, 16 - len);
    DivUnique(WordAt(buf, j), Pow2(16 - len), Slice(buf, 8 * j, len), Slice(buf, 8 * j + len, 16 - len));
  }

  lemma {:induction false} SliceSmall(buf: seq<byte>, from: nat, len: nat)
    requires from + len <= 8 * |buf| && len <= 32
    ensures Slice(buf, from, len) < DWORD
  {
    hide Slice, Pow2;
    SliceBound(buf, from, len);
    Pow2Sum(len, 32 - len);
    Pow2Is32();
    assert Pow2(len) * Pow2(32 - len) >= Pow2(len) * 1;
  }

  lemma {:induction false} Pow2Is32()
    ensures Pow2(32) == DWORD && Pow2(16) == 65536
  {
    assert Pow2(8) == 256;
    Pow2Sum(8, 8);
    Pow2Sum(16, 16);
  }

  /** The words that a field of n bits from the start of a word touches; at least one is read. */
  function Words(n: nat): nat { if n <= 16 then 1 else (n + 15) / 16 }

  /** Shifts a 32-bit value left and puts `low`, which is below 2^bits, into the bits set free. */
  function ShiftIn(value: nat, bits: nat, low: nat): nat { (value * Pow2(bits) + low) % DWORD }

  function LowBits(word: nat, bits: nat): nat { word % Pow2(bits) }

  function HighBits(word: nat, bits: nat): nat
    requires bits <= 16
  {
    DivNat(word, Pow2(16 - bits));
    word / Pow2(16 - bits)
  }

  /** A field that does not fit in its first word: the rest of that word, whole words, the top of the last. */
  method ExtractLong(buf: seq<byte>, startWord: nat, startBit: nat, len: nat, ghost e: nat) returns (value: nat)
    requires startBit < 16 < startBit + len && 16 * startWord + startBit + len <= 16 * e && 2 * e <= |buf|
    ensures value == Slice(buf, 16 * startWord + startBit, len) % DWORD
  {
    hide BitAt, Slice, Pow2, WordAt, ShiftIn, LowBits, HighBits;
    ghost var from := 16 * startWord + startBit;
    value := 0;
    var lenLeft, word, firstWord := len, startWord, true;
    while lenLeft >= 16 || firstWord
      invariant firstWord ==> lenLeft == len && word == startWord
      invariant !firstWord ==> 0 <= lenLeft <= len && 16 * word == from + (len - lenLeft)
      invariant !firstWord ==> value == Slice(buf, from, len - lenLeft) % DWORD
      decreases firstWord, lenLeft
    {
      var curWord := WordAt(buf, 2 * word);
      if firstWord {
        FirstField(buf, startWord, startBit);
        value := LowBits(curWord, 16 - startBit);
        firstWord := false;
        lenLeft := lenLeft - (16 - startBit);
      } else {
        NextField(buf, from, len - lenLeft, 2 * word);
        value := ShiftIn(value, 16, curWord);
        lenLeft := lenLeft - 16;
      }
      word := word + 1;
    }
    if lenLeft > 0 {
      var curWord := WordAt(buf, 2 * word);
      LastField(buf, from, len - lenLeft, lenLeft, 2 * word);
      value := ShiftIn(value, lenLeft, HighBits(curWord, lenLeft));
    }
  }

  /** extractDword: the field modulo 2^32. */
  method ExtractDword(buf: seq<byte>, startWord: nat, startBit: nat, len: nat) returns (value: nat)
    requires startBit < 16 && 2 * (startWord + Words(startBit + len)) <= |buf|
    ensures value == Slice(buf, 16 * startWord + startBit, len) % DWORD
  {
    hide BitAt, Slice, Pow2, WordAt;
    if startBit + len <= 16 {
      var word := WordAt(buf, 2 * startWord);
      FieldInWord(buf, 2 * startWord, startBit, len);
      SliceSmall(buf, 16 * startWord + startBit, len);
      value := word / Pow2(16 - startBit - len) % Pow2(len);
    } else {
      value := ExtractLong(buf, startWord, startBit, len, startWord + Words(startBit + len));
    }
  }

  lemma {:induction false} FirstField(buf: seq<byte>, startWord: nat, startBit: nat)
    requires startBit < 16 && 2 * startWord + 2 <= |buf|
    ensures LowBits(WordAt(buf, 2 * startWord), 16 - startBit)
            == Slice(buf, 16 * startWord + startBit, 16 - startBit) % DWORD
  {
    hide BitAt, Slice, Pow2, WordAt;
    var j, rest := 2 * startWord, 16 - startBit;
    WordSlice(buf, j);
    SliceSplit(buf, 8 * j, startBit, rest);
    SliceBound(buf, 8 * j + startBit, rest);
    DivUnique(WordAt(buf, j), Pow2(rest), Slice(buf, 8 * j, startBit), Slice(buf, 8 * j + startBit, rest));
    SliceSmall(buf, 16 * startWord + startBit, rest);
  }

  lemma {:induction false} NextField(buf: seq<byte>, from: nat, d: nat, j: nat)
    requires from + d == 8 * j && j + 2 <= |buf|
    ensures ShiftIn(Slice(buf, from, d) % DWORD, 16, WordAt(buf, j)) == Slice(buf, from, d + 16) % DWORD
  {
    hide BitAt, Slice, Pow2, WordAt;
    SliceSplit(buf, from, d, 16);
    WordSlice(buf, j);
    ModMul(Slice(buf, from, d), Pow2(16), WordAt(buf, j));
  }

  lemma {:induction false} LastField(buf: seq<byte>, from: nat, d: nat, len: nat, j: nat)
    requires from + d == 8 * j && j + 2 <= |buf| && len <= 16
    ensures ShiftIn(Slice(buf, from, d) % DWORD, len, HighBits(WordAt(buf, j), len))
            == Slice(buf, from, d + len) % DWORD
  {
    hide BitAt, Slice, Pow2, WordAt;
    SliceSplit(buf, from, d, len);
    FieldAtTop(buf, j, len);
    ModMul(Slice(buf, from, d), Pow2(len), Slice(buf, from + d, len));
  }

  // ----- fields of whole octets -----

  /** The number that n octets spell, the highest first. */
  function Number(buf: seq<byte>, at: nat, n: nat): nat
    requires at + n <= |buf|
  {
    if n == 0 then 0 else 256 * Number(buf, at, n - 1) + buf[at + n - 1]
  }

  /** A field of whole octets is their number. */
  lemma {:induction false} OctetField(buf: seq<byte>, at: nat, n: nat)
    requires at + n <= |buf|
    ensures Slice(buf, 8 * at, 8 * n) == Number(buf, at, n)
  {
    hide BitAt, Slice, Pow2;
    if n > 0 {
      OctetField(buf, at, n - 1);
      SliceSplit(buf, 8 * at, 8 * (n - 1), 8);
      Pow2Bytes();
      OctetPart(buf, at + n - 1, 8);
      assert 8 * at + 8 * (n - 1) == 8 * (at + n - 1);
    } else {
      SliceNone(buf, 8 * at);
    }
  }

  lemma {:induction false} SliceNone(buf: seq<byte>, from: nat)
    requires from <= 8 * |buf|
    ensures Slice(buf, from, 0) == 0
  {
  }

  lemma {:induction false} Pow2Bytes()
    ensures Pow2(8) == 256 && Pow2(0) == 1
  {
    assert Pow2(4) == 16;
    assert Pow2(8) == 16 * Pow2(4);
  }

  function Octets3(buf: seq<byte>, at: nat): nat
    requires at + 3 <= |buf|
  {
    65536 * (buf[at] as int) + 256 * (buf[at + 1] as int) + (buf[at + 2] as int)
  }

  function Octets4(buf: seq<byte>, at: nat): nat
    requires at + 4 <= |buf|
  {
    16777216 * (buf[at] as int) + 65536 * (buf[at + 1] as int) + 256 * (buf[at + 2] as int) + (buf[at + 3] as int)
  }

  /** Fields of one, three and four octets, written out. */
  lemma {:induction false} Spelled(buf: seq<byte>, at: nat)
    ensures at + 1 <= |buf| ==> Slice(buf, 8 * at, 8) == buf[at]
    ensures at + 3 <= |buf| ==>
              Slice(buf, 8 * at, 24) == 65536 * (buf[at] as int) + 256 * (buf[at + 1] as int) + (buf[at + 2] as int)
    ensures at + 4 <= |buf| ==>
              Slice(buf, 8 * at, 32)
              == 16777216 * (buf[at] as int) + 65536 * (buf[at + 1] as int) + 256 * (buf[at + 2] as int)
                 + (buf[at + 3] as int)
  {
    hide Slice;
    if at + 1 <= |buf| {
      OctetField(buf, at, 1);
      assert Number(buf, at, 1) == 256 * Number(buf, at, 0) + buf[at];
    }
    if at + 3 <= |buf| {
      OctetField(buf, at, 3);
      assert Number(buf, at, 2) == 256 * Number(buf, at, 1) + buf[at + 1];
      assert Number(buf, at, 3) == 256 * Number(buf, at, 2) + buf[at + 2];
    }
    if at + 4 <= |buf| {
      OctetField(buf, at, 4);
      assert Number(buf, at, 4) == 256 * Number(buf, at, 3) + buf[at + 3];
    }
  }

  // ----- attribute-value pairs -----

  const CC_REQUEST_TYPE: nat := 416
  const RESULT_CODE: nat := 268
  const HEADER: nat := 20

  function Code(buf: seq<byte>, at: nat): nat
    requires at + 8 <= |buf|
  {
    Slice(buf, 8 * at, 32)
  }

  function Length(buf: seq<byte>, at: nat): nat
    requires at + 8 <= |buf|
  {
    Slice(buf, 8 * at + 40, 24)
  }

  /** AVPs start at multiples of four octets. */
  function Padded(length: nat): (p: nat)
    ensures length <= p < length + 4 && p % 4 == 0
  {
    if length % 4 == 0 then length else length + (4 - length % 4)
  }

  /** The walk stops at an AVP that claims no octets or too many. */
  predicate Refused(length: nat) { length == 0 || length > 5014 }

  /** The data of the AVP can be read; the extractor looks at one word even if there is none. */
  predicate Start(buf: seq<byte>, at: nat) {
    && at + 10 <= |buf| && 8 <= Length(buf, at) && at + Padded(Length(buf, at)) <= |buf|
  }

  /** The buffer holds what a walk from at to end reads: whole AVPs, and at least one word behind the header of those
      that are decoded, which have no length below that of the header. */
  predicate Readable(buf: seq<byte>, at: nat, end: nat)
    decreases end - at
  {
    at >= end
    || (at + 8 <= |buf|
        && (Refused(Length(buf, at))
            || (&& at + Padded(Length(buf, at)) <= |buf|
                && (Code(buf, at) == CC_REQUEST_TYPE || Code(buf, at) == RESULT_CODE ==> Start(buf, at))
                && Readable(buf, at + Padded(Length(buf, at)), end))))
  }

  /** Where the AVPs start that the walk visits if nothing stops it early. */
  function Starts(buf: seq<byte>, at: nat, end: nat): seq<nat>
    requires Readable(buf, at, end)
    decreases end - at
  {
    if at >= end || Refused(Length(buf, at)) then [] else [at] + Starts(buf, at + Padded(Length(buf, at)), end)
  }

  /** Each AVP starts where the one before it and its padding to a multiple of four end; the last ends at the end, or
      before an AVP whose length is 0 or above 5014. */
  ghost predicate Chained(buf: seq<byte>, starts: seq<nat>, at: nat, end: nat) {
    if starts == [] then at >= end || (at + 8 <= |buf| && (Length(buf, at) == 0 || Length(buf, at) > 5014))
    else
      && starts[0] == at < end && at + 8 <= |buf| && 1 <= Length(buf, at) <= 5014
      && exists next :: next % 4 == at % 4 && at + Length(buf, at) <= next < at + Length(buf, at) + 4
                        && Chained(buf, starts[1..], next, end)
  }

  lemma {:induction false} StartsExactly(buf: seq<byte>, at: nat, end: nat)
    requires Readable(buf, at, end)
    ensures Chained(buf, Starts(buf, at, end), at, end)
    decreases end - at
  {
    hide Slice;
    if at < end && !Refused(Length(buf, at)) {
      var next := at + Padded(Length(buf, at));
      StartsExactly(buf, next, end);
      assert Starts(buf, at, end)[1..] == Starts(buf, next, end);
    }
  }

  /** From at to end there are whole AVPs of accepted length, as section 4.1 of RFC 6733 lays them out; the two that
      are decoded carry a 32-bit value. */
  predicate WellFormed(buf: seq<byte>, at: nat, end: nat)
    requires end <= |buf|
    decreases end - at
  {
    at == end
    || (&& at + 8 <= end && 8 <= Length(buf, at) <= 5014 && at + Padded(Length(buf, at)) <= end
        && (Code(buf, at) == CC_REQUEST_TYPE || Code(buf, at) == RESULT_CODE ==> Length(buf, at) == 12)
        && WellFormed(buf, at + Padded(Length(buf, at)), end))
  }

  /** The AVPs fill the octets from at to end without gaps. */
  ghost predicate Tiles(buf: seq<byte>, starts: seq<nat>, at: nat, end: nat) {
    if starts == [] then at == end
    else
      && starts[0] == at && at + 8 <= |buf|
      && Tiles(buf, starts[1..], at + Padded(Length(buf, at)), end)
  }

  /** A well-formed sequence can be walked, and the walk goes through all of it. */
  lemma {:induction false} WalksAll(buf: seq<byte>, at: nat, end: nat)
    requires end <= |buf| && WellFormed(buf, at, end)
    ensures Readable(buf, at, end) && Tiles(buf, Starts(buf, at, end), at, end)
    decreases end - at
  {
    hide Slice;
    if at != end {
      WalksAll(buf, at + Padded(Length(buf, at)), end);
      assert Starts(buf, at, end)[1..] == Starts(buf, at + Padded(Length(buf, at)), end);
    }
  }

  /** The data of an AVP, modulo 2^32; an AVP that is only a header reads as 0. */
  function Data(buf: seq<byte>, at: nat): nat
    requires Start(buf, at)
  {
    Slice(buf, 8 * at + 64, 8 * (Length(buf, at) - 8)) % DWORD
  }

  /** The header of an AVP, and the data of one with four octets, written out. */
  lemma {:induction false} HeadSpelled(buf: seq<byte>, at: nat)
    requires at + 8 <= |buf|
    ensures Code(buf, at)
            == 16777216 * (buf[at] as int) + 65536 * (buf[at + 1] as int) + 256 * (buf[at + 2] as int)
               + (buf[at + 3] as int)
    ensures Length(buf, at) == 65536 * (buf[at + 5] as int) + 256 * (buf[at + 6] as int) + (buf[at + 7] as int)
  {
    hide Slice;
    Spelled(buf, at);
    Spelled(buf, at + 5);
  }

  lemma {:induction false} DataSpelled(buf: seq<byte>, at: nat)
    requires Start(buf, at) && Length(buf, at) == 12
    ensures at + 12 <= |buf|
    ensures Data(buf, at)
            == 16777216 * (buf[at + 8] as int) + 65536 * (buf[at + 9] as int) + 256 * (buf[at + 10] as int)
               + (buf[at + 11] as int)
  {
    hide Slice, Length;
    Spelled(buf, at + 8);
  }

  function RequestType(value: nat): nat { if value > 4 then 0 else value }

  /** AVP at `at` has the given code. */
  predicate Has(buf: seq<byte>, at: nat, code: nat) { at + 8 <= |buf| && Code(buf, at) == code }

  /** The data of the last of these AVPs that has the given code and has data. */
  function LastData(buf: seq<byte>, starts: seq<nat>, code: nat, none: nat): nat {
    if starts == [] then none
    else
      var at := starts[|starts| - 1];
      if Has(buf, at, code) && Start(buf, at) then Data(buf, at)
      else LastData(buf, starts[..|starts| - 1], code, none)
  }

  ghost predicate Some(buf: seq<byte>, starts: seq<nat>, code: nat) {
    exists i :: 0 <= i < |starts| && Has(buf, starts[i], code)
  }

  /** No AVP but the one at o has the code. */
  ghost predicate Alone(buf: seq<byte>, starts: seq<nat>, code: nat, o: nat) {
    forall i :: 0 <= i < |starts| && Has(buf, starts[i], code) ==> starts[i] == o
  }

  /** The AVP at o is the only CC-Request-Type of the message. */
  ghost predicate Sole(buf: seq<byte>, msgLength: nat, o: nat)
    requires Readable(buf, HEADER, msgLength)
  {
    && o in Starts(buf, HEADER, msgLength) && Has(buf, o, CC_REQUEST_TYPE) && Start(buf, o)
    && Alone(buf, Starts(buf, HEADER, msgLength), CC_REQUEST_TYPE, o)
  }

  /** The only CC-Request-Type of the message has four octets of data, which spell n. */
  ghost predicate SoleNumber(buf: seq<byte>, msgLength: nat, o: nat, n: nat) {
    && Readable(buf, HEADER, msgLength) && Sole(buf, msgLength, o)
    && o + 12 <= |buf| && Length(buf, o) == 12 && n == Octets4(buf, o + 8)
  }

  lemma {:induction false} SoleData(buf: seq<byte>, msgLength: nat, o: nat, n: nat)
    requires SoleNumber(buf, msgLength, o, n)
    ensures Sole(buf, msgLength, o) && Data(buf, o) == n
  {
    hide Slice, Readable, Starts, Data;
    DataSpelled(buf, o);
  }

  /** If only one AVP has the code, its data is the last. */
  lemma {:induction false} OnlyOne(buf: seq<byte>, starts: seq<nat>, code: nat, none: nat, o: nat)
    requires Some(buf, starts, code) && Start(buf, o) && Alone(buf, starts, code, o)
    ensures LastData(buf, starts, code, none) == Data(buf, o)
  {
    hide Slice, Code, Length;
    var n := |starts| - 1;
    if !Has(buf, starts[n], code) {
      var i :| 0 <= i < |starts| && Has(buf, starts[i], code);
      assert starts[..n][i] == starts[i];
      OnlyOne(buf, starts[..n], code, none, o);
    }
  }

  method ReadHead(buf: seq<byte>, avpStartWord: nat) returns (code: nat, length: nat)
    requires 2 * avpStartWord + 8 <= |buf|
    ensures code == Code(buf, 2 * avpStartWord) && length == Length(buf, 2 * avpStartWord)
  {
    hide Slice;
    code := ExtractDword(buf, avpStartWord, 0, 32);
    length := ExtractDword(buf, avpStartWord + 2, 8, 24);
    SliceSmall(buf, 16 * avpStartWord, 32);
    SliceSmall(buf, 16 * avpStartWord + 40, 24);
  }

  /** The words that are read behind the header lie within the AVP, or are the one after it. */
  lemma {:induction false} DataWords(length: nat)
    requires length >= 8
    ensures 8 + 2 * Words((length - 8) * 8) <= if length == 8 then 10 else Padded(length)
  {
  }

  method ReadData(buf: seq<byte>, avpStartWord: nat, avpLength: nat) returns (value: nat)
    requires Start(buf, 2 * avpStartWord) && avpLength == Length(buf, 2 * avpStartWord)
    ensures value == Data(buf, 2 * avpStartWord)
  {
    hide Slice, Length, Words, Padded;
    DataWords(avpLength);
    value := ExtractDword(buf, avpStartWord + 4, 0, (avpLength - 8) * 8);
  }

  lemma {:induction false} Visited(buf: seq<byte>, starts: seq<nat>, at: nat, code: nat, none: nat)
    ensures Some(buf, starts + [at], code) <==> Some(buf, starts, code) || Has(buf, at, code)
    ensures LastData(buf, starts + [at], code, none)
            == if Has(buf, at, code) && Start(buf, at) then Data(buf, at) else LastData(buf, starts, code, none)
  {
    hide Slice, Code, Length, Start, Data, Has;
    var more := starts + [at];
    assert more[..|starts|] == starts && more[|starts|] == at;
    if i :| 0 <= i < |starts| && Has(buf, starts[i], code) { assert more[i] == starts[i]; }
  }

  /** What one AVP of the walk tells. */
  datatype Found = Found(reqType: nat, resCode: nat, ccReq: bool, result: bool)

  ghost predicate Tells(buf: seq<byte>, visited: seq<nat>, f: Found, reqType: nat, resCode: nat) {
    && (f.ccReq <==> Some(buf, visited, CC_REQUEST_TYPE)) && (f.result <==> Some(buf, visited, RESULT_CODE))
    && f.reqType == (if f.ccReq then RequestType(LastData(buf, visited, CC_REQUEST_TYPE, 0)) else reqType)
    && f.resCode == (if f.result then LastData(buf, visited, RESULT_CODE, 0) else resCode)
  }

  /** The switch over the AVP code. */
  method Decode(buf: seq<byte>, avpStartWord: nat, avpCode: nat, avpLength: nat, f: Found, ghost visited: seq<nat>,
                ghost reqType: nat, ghost resCode: nat) returns (f': Found)
    requires 2 * avpStartWord + 8 <= |buf| && Tells(buf, visited, f, reqType, resCode)
    requires avpCode == Code(buf, 2 * avpStartWord) && avpLength == Length(buf, 2 * avpStartWord)
    requires Has(buf, 2 * avpStartWord, CC_REQUEST_TYPE) || Has(buf, 2 * avpStartWord, RESULT_CODE) ==>
               Start(buf, 2 * avpStartWord)
    ensures Tells(buf, visited + [2 * avpStartWord], f', reqType, resCode)
  {
    hide Slice, Length, Start, Data, LastData, Some;
    Visited(buf, visited, 2 * avpStartWord, CC_REQUEST_TYPE, 0);
    Visited(buf, visited, 2 * avpStartWord, RESULT_CODE, 0);
    f' := f;
    if avpCode == 268 {
      var value := ReadData(buf, avpStartWord, avpLength);
      f' := f'.(resCode := value, result := true);
    } else if avpCode == 416 {
      var value := ReadData(buf, avpStartWord, avpLength);
      f' := f'.(reqType := if value > 4 then 0 else value, ccReq := true);
    }
  }

  predicate Stops(request: int, f: Found) {
    (request == 1 && f.ccReq) || (request == 0 && f.ccReq && f.result)
  }

  /** The walk has what it looks for after these AVPs. */
  ghost predicate Enough(buf: seq<byte>, visited: seq<nat>, request: int) {
    && Some(buf, visited, CC_REQUEST_TYPE)
    && (request == 1 || (request == 0 && Some(buf, visited, RESULT_CODE)))
  }

  /** The length with its padding, in octets and in words. */
  method RoundUp(avpLength: nat) returns (n: nat, words: nat)
    ensures n == Padded(avpLength) && n == 2 * words
  {
    var roundoff, reminder := 0, avpLength % 4;
    if reminder != 0 {
      roundoff := 4 - reminder;
    }
    n := avpLength + roundoff;
    words := n / 2;
    PaddedEven(avpLength);
  }

  lemma {:induction false} PaddedEven(length: nat)
    ensures Padded(length) == 2 * (Padded(length) / 2)
  {
    var n, q := Padded(length), length / 4;
    assert length == 4 * q + length % 4;
    var k := if length % 4 == 0 then 2 * q else 2 * q + 2;
    assert n == k * 2 + 0;
    hide Padded;
    DivUnique(n, 2, k, 0);
  }

  /** The walk over the AVPs of a message: it goes from start to start, and ends at the end of the message, at an AVP
      of refused length, or as soon as it has what it looks for. What `request` holds at this point is not known. */
  method Walk(buf: seq<byte>, msgLength: nat, request: int, reqType: nat, resCode: nat)
    returns (f: Found, ghost visited: seq<nat>)
    requires Readable(buf, HEADER, msgLength)
    ensures Tells(buf, visited, f, reqType, resCode) && visited <= Starts(buf, HEADER, msgLength)
    ensures visited == Starts(buf, HEADER, msgLength) || Enough(buf, visited, request)
    ensures forall i :: 0 <= i < |visited| ==> !Enough(buf, visited[..i], request)
    ensures forall o :: Sole(buf, msgLength, o) ==> f.reqType == RequestType(Data(buf, o))
    ensures forall o: nat, n: nat :: SoleNumber(buf, msgLength, o, n) ==> f.reqType == if n <= 4 then n else 0
    ensures visited != Starts(buf, HEADER, msgLength) ==>
              Some(buf, visited, 416) && (request == 1 || (request == 0 && Some(buf, visited, 268)))
    ensures forall i :: 0 <= i < |visited| ==>
              !(Some(buf, visited[..i], 416) && (request == 1 || (request == 0 && Some(buf, visited[..i], 268))))
  {
    hide Slice, Code, Length, LastData, Start, Padded, Has, Readable, Starts, Some, Alone, Data, SoleNumber;
    visited := [];
    f := Found(reqType, resCode, false, false);
    TellsNothing(buf, reqType, resCode);
    var msgRemaining, avpStartWord: nat := msgLength - 20, 10;
    EndOf(buf, HEADER, msgLength);
    while msgRemaining > 0
      invariant 2 * avpStartWord + msgRemaining == msgLength && Readable(buf, 2 * avpStartWord, msgLength)
      invariant msgRemaining <= 0 ==> Starts(buf, 2 * avpStartWord, msgLength) == []
      invariant visited + Starts(buf, 2 * avpStartWord, msgLength) == Starts(buf, HEADER, msgLength)
      invariant Tells(buf, visited, f, reqType, resCode)
      invariant forall i :: 0 <= i <= |visited| ==> !Enough(buf, visited[..i], request)
    {
      ghost var at := 2 * avpStartWord;
      HeadOf(buf, at, msgLength);
      var avpCode, avpLength := ReadHead(buf, avpStartWord);
      if avpLength <= 0 || avpLength > 5014 {
        break;
      }
      f := Decode(buf, avpStartWord, avpCode, avpLength, f, visited, reqType, resCode);
      ghost var rest := Starts(buf, at + Padded(avpLength), msgLength);
      assert visited + ([at] + rest) == (visited + [at]) + rest;
      Prefixes(visited, at);
      visited := visited + [at];
      if Stops(request, f) {
        break;
      }
      var padded, words := RoundUp(avpLength);
      msgRemaining := msgRemaining - padded;
      avpStartWord := avpStartWord + words;
      EndOf(buf, 2 * avpStartWord, msgLength);
    }
    forall o | Sole(buf, msgLength, o) ensures f.reqType == RequestType(Data(buf, o)) {
      OneRequestType(buf, msgLength, request, reqType, resCode, f, visited, o);
    }
    forall o: nat, n: nat | SoleNumber(buf, msgLength, o, n) ensures f.reqType == if n <= 4 then n else 0 {
      SoleData(buf, msgLength, o, n);
    }
  }

  lemma {:induction false} Prefixes(visited: seq<nat>, at: nat)
    ensures forall i :: 0 <= i <= |visited| ==> (visited + [at])[..i] == visited[..i]
    ensures visited[..|visited|] == visited && (visited + [at])[..|visited| + 1] == visited + [at]
  {
  }

  lemma {:induction false} TellsNothing(buf: seq<byte>, reqType: nat, resCode: nat)
    ensures Tells(buf, [], Found(reqType, resCode, false, false), reqType, resCode)
  {
  }

  lemma {:induction false} EndOf(buf: seq<byte>, at: nat, end: nat)
    requires Readable(buf, at, end)
    ensures at >= end ==> Starts(buf, at, end) == []
  {
  }

  lemma {:induction false} HeadOf(buf: seq<byte>, at: nat, end: nat)
    requires Readable(buf, at, end) && at < end
    ensures at + 8 <= |buf|
    ensures Refused(Length(buf, at)) ==> Starts(buf, at, end) == []
    ensures !Refused(Length(buf, at)) ==>
              && Readable(buf, at + Padded(Length(buf, at)), end)
              && Starts(buf, at, end) == [at] + Starts(buf, at + Padded(Length(buf, at)), end)
              && (Has(buf, at, CC_REQUEST_TYPE) || Has(buf, at, RESULT_CODE) ==> Start(buf, at))
  {
  }

  /** A message with one CC-Request-Type AVP yields its value, or 0 if that is above 4, whatever `request` held. */
  lemma {:induction false} OneRequestType(buf: seq<byte>, msgLength: nat, request: int, reqType: nat, resCode: nat,
                                          f: Found, visited: seq<nat>, o: nat)
    requires Readable(buf, HEADER, msgLength)
    requires visited <= Starts(buf, HEADER, msgLength) && Tells(buf, visited, f, reqType, resCode)
    requires visited == Starts(buf, HEADER, msgLength) || Enough(buf, visited, request)
    requires Sole(buf, msgLength, o)
    ensures f.reqType == RequestType(Data(buf, o))
  {
    hide Slice, Code, Length, LastData, Start, Readable, Data, Has, Starts;
    var all := Starts(buf, HEADER, msgLength);
    assert Some(buf, visited, CC_REQUEST_TYPE);
    forall i | 0 <= i < |visited| && Has(buf, visited[i], CC_REQUEST_TYPE) ensures visited[i] == o {
      assert all[i] == visited[i];
    }
    OnlyOne(buf, visited, CC_REQUEST_TYPE, 0, o);
  }

  // ----- the message -----

  predicate KnownApplication(appId: nat) { appId == 16777238 || appId == 4 || appId == 16777999 }

  predicate KnownCommand(cc: nat) { cc == 272 || cc == 265 || cc == 275 }

  lemma {:induction false} RequestBit(buf: seq<byte>)
    requires |buf| >= HEADER
    ensures Slice(buf, 32, 8) / 128 % 2 == BitAt(buf, 32)
  {
    OctetPart(buf, 4, 8);
    assert Pow2(7) == 128 && Pow2(0) == 1;
  }

  /** A field of the last three octets of two words, and one of two words. */
  method ReadThree(buf: seq<byte>, startWord: nat) returns (value: nat)
    requires 2 * startWord + 4 <= |buf|
    ensures value == Slice(buf, 16 * startWord + 8, 24) == Octets3(buf, 2 * startWord + 1)
  {
    hide Slice;
    value := ExtractDword(buf, startWord, 8, 24);
    SliceSmall(buf, 16 * startWord + 8, 24);
    Spelled(buf, 2 * startWord + 1);
  }

  method ReadFour(buf: seq<byte>, startWord: nat) returns (value: nat)
    requires 2 * startWord + 4 <= |buf|
    ensures value == Slice(buf, 16 * startWord, 32) == Octets4(buf, 2 * startWord)
  {
    hide Slice;
    value := ExtractDword(buf, startWord, 0, 32);
    SliceSmall(buf, 16 * startWord, 32);
    Spelled(buf, 2 * startWord);
  }

  method ReadFlags(buf: seq<byte>) returns (value: nat)
    requires 6 <= |buf|
    ensures value == Slice(buf, 32, 8) == buf[4]
  {
    hide Slice;
    value := ExtractDword(buf, 2, 0, 8);
    SliceSmall(buf, 32, 8);
    Spelled(buf, 4);
  }

  class Diameter {
    var valid: bool
    var cc: nat
    var appId: nat
    var msgLength: nat
    var commandFlag: nat
    var hopIdentifier: nat
    var request: int
    var reqType: nat
    var resCode: nat

    /** Decodes a message. The members request, reqType and resCode hold arbitrary values until they are set. */
    constructor (dMsg: seq<byte>, anyRequest: int, anyType: nat, anyCode: nat)
      requires |dMsg| >= 12
      requires KnownApplication(Slice(dMsg, 64, 32)) && KnownCommand(Slice(dMsg, 40, 24)) ==>
                 |dMsg| >= HEADER && Readable(dMsg, HEADER, Slice(dMsg, 8, 24))
      ensures cc == Slice(dMsg, 40, 24) && appId == Slice(dMsg, 64, 32)
      ensures valid <==> KnownApplication(appId) && KnownCommand(cc)
      ensures valid <==> appId in {16777238, 4, 16777999} && cc in {272, 265, 275}
      ensures valid ==> msgLength == Slice(dMsg, 8, 24) && commandFlag == Slice(dMsg, 32, 8)
      ensures valid ==> hopIdentifier == Slice(dMsg, 96, 32) && request == BitAt(dMsg, 32)
      ensures valid ==> forall o :: Sole(dMsg, msgLength, o) ==> reqType == RequestType(Data(dMsg, o))
      ensures valid ==> forall o: nat, n: nat :: SoleNumber(dMsg, msgLength, o, n) ==> reqType == if n <= 4 then n else 0
      ensures cc == Octets3(dMsg, 5) && appId == Octets4(dMsg, 8)
      ensures valid ==> msgLength == Octets3(dMsg, 1) && hopIdentifier == Octets4(dMsg, 12)
      ensures valid ==> commandFlag == dMsg[4] && request == if dMsg[4] >= 128 then 1 else 0
    {
      hide Slice, BitAt, Readable, Starts, Has, Start, Alone, Data, Octets3, Octets4, Length, SoleNumber;
      valid, request, reqType, resCode := true, anyRequest, anyType, anyCode;
      msgLength, commandFlag, hopIdentifier := 0, 0, 0;
      var command := ReadThree(dMsg, 2);
      var application := ReadFour(dMsg, 4);
      cc, appId := command, application;
      if !KnownApplication(application) || !KnownCommand(command) {
        valid := false;
      } else {
        var length := ReadThree(dMsg, 0);
        var flags := ReadFlags(dMsg);
        var hop := ReadFour(dMsg, 6);
        msgLength, commandFlag, hopIdentifier := length, flags, hop;
        var f, visited := Walk(dMsg, length, anyRequest, anyType, anyCode);
        reqType, resCode := f.reqType, f.resCode;
        RequestBit(dMsg);
        request := if flags / 128 % 2 == 1 then 1 else 0;
      }
    }
  }
}

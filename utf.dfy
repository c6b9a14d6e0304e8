/**
 * Specification of the byte-level string helpers of utils.cpp:
 * ASCII case maps, UTF-8 decoding into UTF-16 code units or code points,
 * and the two encoders back to UTF-8.
 *
 * The source works on bytes and code units with bit masks and shifts. Every
 * mask and shift used there selects or places a contiguous bit field, so it is
 * written here as the equivalent `/` and `%` by a power of two, and every `|`
 * that joins disjoint fields as `+`. The comment on each helper names the C++
 * expression it stands for.
 */
module Utf {

  type Byte = b: int | 0 <= b < 0x100
  type Unit16 = u: int | 0 <= u < 0x1_0000
  type Unit32 = u: int | 0 <= u < 0x1_0000_0000

  // ---------------------------------------------------------------------------
  // Case maps (the "C" locale's tolower/toupper on one byte)

  function ToLower(b: Byte): Byte {
    if 'A' as int <= b <= 'Z' as int then b + 32 else b
  }

  function ToUpper(b: Byte): Byte {
    if 'a' as int <= b <= 'z' as int then b - 32 else b
  }

  /** The string with every byte mapped through tolower. */
  function Lower(s: seq<Byte>): (r: seq<Byte>)
  {
    seq(|s|, i requires 0 <= i < |s| => ToLower(s[i]))
  }

  /** The string with every byte mapped through toupper. */
  function Upper(s: seq<Byte>): (r: seq<Byte>)
  {
    seq(|s|, i requires 0 <= i < |s| => ToUpper(s[i]))
  }

  // ---------------------------------------------------------------------------
  // Bit fields

  /** `(b & 0xC0) == 0x80`: a UTF-8 continuation byte. */
  predicate IsCont(b: Byte) { 0x80 <= b < 0xC0 }

  /** `c1 == 0xE0` needs `(c2 & 0xE0) == 0xA0`, `c1 == 0xED` needs
      `(c2 & 0xE0) == 0x80`, any other three-byte lead a continuation byte. */
  predicate Second3Ok(c1: Byte, c2: Byte) {
    if c1 == 0xE0 then 0xA0 <= c2 <= 0xBF
    else if c1 == 0xED then 0x80 <= c2 <= 0x9F
    else IsCont(c2)
  }

  /** `c1 == 0xF0` needs `0x90 <= c2 <= 0xBF`, `c1 == 0xF4` needs
      `(c2 & 0xF0) == 0x80`, any other four-byte lead a continuation byte. */
  predicate Second4Ok(c1: Byte, c2: Byte) {
    if c1 == 0xF0 then 0x90 <= c2 <= 0xBF
    else if c1 == 0xF4 then 0x80 <= c2 <= 0x8F
    else IsCont(c2)
  }

  /** `((c1 & 0x1F) << 6) | (c2 & 0x3F)` */
  function Value2(c1: Byte, c2: Byte): int { (c1 % 32) * 64 + c2 % 64 }

  /** `((c1 & 0x0F) << 12) | ((c2 & 0x3F) << 6) | (c3 & 0x3F)` */
  function Value3(c1: Byte, c2: Byte, c3: Byte): int {
    (c1 % 16) * 4096 + (c2 % 64) * 64 + c3 % 64
  }

  /** `((c1 & 7) << 18) + ((c2 & 0x3F) << 12) + ((c3 & 0x3F) << 6) + (c4 & 0x3F)` */
  function Value4(c1: Byte, c2: Byte, c3: Byte, c4: Byte): int {
    (c1 % 8) * 262144 + (c2 % 64) * 4096 + (c3 % 64) * 64 + c4 % 64
  }

  /** The high surrogate DecodeUTF16 builds from a four-byte sequence:
      `0xD800 | ((((c1 & 7) << 2 | (c2 & 0x30) >> 4) - 1) << 6)
              | ((c2 & 0x0F) << 2) | ((c3 & 0x30) >> 4)` */
  function HighOf(c1: Byte, c2: Byte, c3: Byte): int {
    0xD800 + ((c1 % 8) * 4 + (c2 % 64) / 16 - 1) * 64 + (c2 % 16) * 4 + (c3 % 64) / 16
  }

  /** The low surrogate: `0xDC00 | ((c3 & 0x0F) << 6) | (c4 & 0x3F)` */
  function LowOf(c3: Byte, c4: Byte): int {
    0xDC00 + (c3 % 16) * 64 + c4 % 64
  }

  predicate IsHigh(u: int) { 0xD800 <= u < 0xDC00 }

  /** `(wc & 0xFC00) == 0xDC00` */
  predicate IsLow(u: int) { 0xDC00 <= u < 0xE000 }

  predicate IsSurrogate(u: int) { 0xD800 <= u < 0xE000 }

  /** A Unicode scalar value: at most U+10FFFF and not a surrogate. */
  predicate IsScalar(u: int) { 0 <= u <= 0x10FFFF && !IsSurrogate(u) }

  /** `((((wc1 & 0x03C0) >> 6) + 1) << 16) + ((wc1 & 0x003F) << 10) + (wc2 & 0x03FF)` */
  function PairValue(w1: Unit16, w2: Unit16): int {
    ((w1 % 1024) / 64 + 1) * 65536 + (w1 % 64) * 1024 + w2 % 1024
  }

  // ---------------------------------------------------------------------------
  // One turn of a transcoding loop

  /** What one turn of the source's loop does with the input under its
      iterator: append `out` to the result and move on by `len` units
      (`continue` is an empty `out`), or leave the loop (`break`). */
  datatype Step<T> = Emit(out: seq<T>, len: nat) | Halt

  // ---------------------------------------------------------------------------
  // Decoders

  /** One turn of DecodeUTF16's loop on the bytes from the iterator on. The
      length counts the bytes consumed, the closing `++it` included. */
  function Turn16(s: seq<Byte>): (r: Step<Unit16>)
    requires s != []
    ensures r.Emit? ==> 1 <= r.len <= |s| && |r.out| <= r.len
  {
    var c1 := s[0];
    if c1 < 0x80 then Emit([c1], 1)
    else if c1 < 0xC2 then Emit([], 1)
    else if c1 < 0xE0 then
      if |s| < 2 then Halt
      // the second byte is consumed whether or not it is a continuation byte
      else if !IsCont(s[1]) then Emit([], 2)
      else Emit([Value2(c1, s[1])], 2)
    else if c1 < 0xF0 then
      if |s| < 3 then Halt
      else if !(Second3Ok(c1, s[1]) && IsCont(s[2])) then Emit([], 3)
      else Emit([Value3(c1, s[1], s[2])], 3)
    else if c1 < 0xF5 then
      if |s| < 4 then Halt
      else if !(Second4Ok(c1, s[1]) && IsCont(s[2]) && IsCont(s[3])) then Emit([], 4)
      else if Value4(c1, s[1], s[2], s[3]) > 0x10FFFF then Emit([], 4)
      else
        Pair4Lemma(c1, s[1], s[2], s[3]);
        Emit([HighOf(c1, s[1], s[2]), LowOf(s[2], s[3])], 4)
    else Emit([], 1)
  }

  /** DecodeUTF16: UTF-8 bytes to UTF-16 code units. */
  function Decode16(s: seq<Byte>): (r: seq<Unit16>)
    ensures |r| <= |s|
    decreases |s|
  {
    if s == [] then []
    else match Turn16(s)
      case Halt => []
      case Emit(out, n) => out + Decode16(s[n..])
  }

  /** One turn of DecodeUTF32's loop. */
  function Turn32(s: seq<Byte>): (r: Step<Unit32>)
    requires s != []
    ensures r.Emit? ==> 1 <= r.len <= |s| && |r.out| <= r.len
  {
    var c1 := s[0];
    if c1 < 0x80 then Emit([c1], 1)
    else if c1 < 0xC2 then Emit([], 1)
    else if c1 < 0xE0 then
      if |s| < 2 then Halt
      // the second byte is only peeked at (`it[1]`): the iterator moves on
      // by one, so the next turn reads that byte as a lead byte
      else if !IsCont(s[1]) then Emit([], 1)
      else Emit([Value2(c1, s[1])], 1)
    else if c1 < 0xF0 then
      if |s| < 3 then Halt
      else if !(Second3Ok(c1, s[1]) && IsCont(s[2])) then Emit([], 3)
      else Emit([Value3(c1, s[1], s[2])], 3)
    else if c1 < 0xF5 then
      if |s| < 4 then Halt
      else if !(Second4Ok(c1, s[1]) && IsCont(s[2]) && IsCont(s[3])) then Emit([], 4)
      else Emit([Value4(c1, s[1], s[2], s[3])], 4)
    else Emit([], 1)
  }

  /** DecodeUTF32: UTF-8 bytes to code points. */
  function Decode32(s: seq<Byte>): (r: seq<Unit32>)
    ensures |r| <= |s|
    decreases |s|
  {
    if s == [] then []
    else match Turn32(s)
      case Halt => []
      case Emit(out, n) => out + Decode32(s[n..])
  }

  /** The surrogates built from an accepted four-byte sequence are a high
      and a low surrogate. */
  lemma Pair4Lemma(c1: Byte, c2: Byte, c3: Byte, c4: Byte)
    requires 0xF0 <= c1 < 0xF5 && Second4Ok(c1, c2)
    requires Value4(c1, c2, c3, c4) <= 0x10FFFF
    ensures IsHigh(HighOf(c1, c2, c3)) && IsLow(LowOf(c3, c4))
  {
    var plane := (c1 % 8) * 4 + (c2 % 64) / 16;
    assert 1 <= plane <= 16 by {
      if c1 == 0xF0 { assert 0x90 <= c2 <= 0xBF; }
      else if c1 == 0xF4 { assert 0x80 <= c2 <= 0x8F; }
    }
  }

  // ---------------------------------------------------------------------------
  // Encoders

  /** `0xC0 | (w >> 6)`, `0x80 | (w & 0x3F)` */
  function Enc2(w: int): seq<Byte>
    requires 0 <= w < 0x800
  {
    [0xC0 + w / 64, 0x80 + w % 64]
  }

  /** `0xE0 | (w >> 12)`, `0x80 | ((w & 0x0FC0) >> 6)`, `0x80 | (w & 0x3F)` */
  function Enc3(w: int): seq<Byte>
    requires 0 <= w < 0x1_0000
  {
    [0xE0 + w / 4096, 0x80 + (w / 64) % 64, 0x80 + w % 64]
  }

  /** `0xF0 | (w >> 18)`, `0x80 | ((w & 0x03F000) >> 12)`,
      `0x80 | ((w & 0x000FC0) >> 6)`, `0x80 | (w & 0x3F)` */
  function Enc4(w: int): seq<Byte>
    requires 0 <= w <= 0x10FFFF
  {
    [0xF0 + w / 262144, 0x80 + (w / 4096) % 64, 0x80 + (w / 64) % 64, 0x80 + w % 64]
  }

  /** The four bytes EncodeUTF(u16) writes for a surrogate pair, with
      `z = ((w1 & 0x03C0) >> 6) + 1`. */
  function EncPair(w1: Unit16, w2: Unit16): seq<Byte> {
    var z := (w1 % 1024) / 64 + 1;
    [0xF0 + z / 4,
     0x80 + (z % 4) * 16 + (w1 % 64) / 4,
     0x80 + (w1 % 4) * 16 + (w2 % 1024) / 64,
     0x80 + w2 % 64]
  }

  /** One turn of the loop of EncodeUTF(u16string). */
  function EncTurn16(u: seq<Unit16>): (r: Step<Byte>)
    requires u != []
    ensures r.Emit? ==> 1 <= r.len <= |u| && |r.out| <= 3 * r.len
  {
    var w := u[0];
    if w < 0x80 then Emit([w], 1)
    else if w < 0x800 then Emit(Enc2(w), 1)
    else if w < 0xD800 then Emit(Enc3(w), 1)
    else if w < 0xDC00 then
      if |u| < 2 then Halt
      else if !IsLow(u[1]) then Emit([], 2)
      else if PairValue(w, u[1]) > 0x10FFFF then Emit([], 2)
      else Emit(EncPair(w, u[1]), 2)
    else if w < 0xE000 then Emit([], 1)
    else Emit(Enc3(w), 1)
  }

  /** EncodeUTF(u16string): UTF-16 code units to UTF-8 bytes. */
  function Encode16(u: seq<Unit16>): (r: seq<Byte>)
    ensures |r| <= 3 * |u|
    decreases |u|
  {
    if u == [] then []
    else match EncTurn16(u)
      case Halt => []
      case Emit(out, n) => out + Encode16(u[n..])
  }

  /** The bytes EncodeUTF(u32string) writes for one scalar value. */
  function EncodeScalar(w: int): (r: seq<Byte>)
    requires IsScalar(w)
    ensures 1 <= |r| <= 4 && (|r| == 1 <==> w < 0x80)
  {
    if w < 0x80 then [w]
    else if w < 0x800 then Enc2(w)
    else if w < 0x1_0000 then Enc3(w)
    else Enc4(w)
  }

  /** EncodeUTF(u32string): stops at the first surrogate or value above 0x10FFFF. */
  function Encode32(u: seq<Unit32>): (r: seq<Byte>)
    ensures |r| <= 4 * |u|
    decreases |u|
  {
    if u == [] then []
    else if !IsScalar(u[0]) then []
    else EncodeScalar(u[0]) + Encode32(u[1..])
  }

  // ---------------------------------------------------------------------------
  // Reference definitions

  /** Well-formed UTF-8, after the table in section 4 of RFC 3629. */
  predicate WellFormed8(b: seq<Byte>)
    decreases |b|
  {
    if b == [] then true
    else
      var c1 := b[0];
      if c1 <= 0x7F then WellFormed8(b[1..])
      else if 0xC2 <= c1 <= 0xDF then
        |b| >= 2 && 0x80 <= b[1] <= 0xBF && WellFormed8(b[2..])
      else if 0xE0 <= c1 <= 0xEF then
        |b| >= 3
        && (if c1 == 0xE0 then 0xA0 <= b[1] <= 0xBF
            else if c1 == 0xED then 0x80 <= b[1] <= 0x9F
            else 0x80 <= b[1] <= 0xBF)
        && 0x80 <= b[2] <= 0xBF && WellFormed8(b[3..])
      else if 0xF0 <= c1 <= 0xF4 then
        |b| >= 4
        && (if c1 == 0xF0 then 0x90 <= b[1] <= 0xBF
            else if c1 == 0xF4 then 0x80 <= b[1] <= 0x8F
            else 0x80 <= b[1] <= 0xBF)
        && 0x80 <= b[2] <= 0xBF && 0x80 <= b[3] <= 0xBF && WellFormed8(b[4..])
      else false
  }

  /** Well-formed UTF-16 (section 2.1 of RFC 2781): every high surrogate is
      followed by a low surrogate and every low surrogate follows a high one. */
  predicate WellFormed16(u: seq<Unit16>)
    decreases |u|
  {
    if u == [] then true
    else if IsHigh(u[0]) then |u| >= 2 && IsLow(u[1]) && WellFormed16(u[2..])
    else !IsLow(u[0]) && WellFormed16(u[1..])
  }

  predicate AllScalars(u: seq<Unit32>) {
    forall i :: 0 <= i < |u| ==> IsScalar(u[i])
  }

  predicate AllAscii(s: seq<int>) {
    forall i :: 0 <= i < |s| ==> 0 <= s[i] < 0x80
  }

  /** Appending nothing leaves a sequence as it was. */
  lemma AppendNil<T>(b: seq<T>)
    ensures b + [] == b
  {
  }
}

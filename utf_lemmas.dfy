/**
 * Properties of the transcoders specified in module Utf: ASCII identity,
 * ranges of decoded values, what is skipped or rejected, and the round trips.
 */
module UtfLemmas {
  import opened Utf

  // ---------------------------------------------------------------------------
  // Sequence and arithmetic helpers. The proofs below are assembled from these
  // small facts so that each step closes by rewriting.

  lemma SliceAppend<T>(b: seq<T>, t: seq<T>, k: nat)
    requires k <= |b|
    ensures (b + t)[k..] == b[k..] + t
  {
  }

  lemma DropPrefix<T>(h: seq<T>, r: seq<T>)
    ensures (h + r)[|h|..] == r
  {
  }

  lemma SplitAt<T>(b: seq<T>, k: nat)
    requires k <= |b|
    ensures b == b[..k] + b[k..]
  {
  }

  lemma Take2<T>(b: seq<T>) requires |b| >= 2 ensures b[..2] == [b[0], b[1]] {}
  lemma Take3<T>(b: seq<T>) requires |b| >= 3 ensures b[..3] == [b[0], b[1], b[2]] {}
  lemma Take4<T>(b: seq<T>) requires |b| >= 4 ensures b[..4] == [b[0], b[1], b[2], b[3]] {}

  /** `a == [v] + (x + y)` and `b == [v] + x` give `a == b + y`. */
  lemma ConsAssoc<T>(v: T, x: seq<T>, y: seq<T>, a: seq<T>, b: seq<T>)
    requires a == [v] + (x + y) && b == [v] + x
    ensures a == b + y
  {
  }

  lemma AppendAssoc<T>(h: seq<T>, x: seq<T>, y: seq<T>, a: seq<T>, b: seq<T>)
    requires a == h + (x + y) && b == h + x
    ensures a == b + y
  {
  }

  lemma Div4(x: int, q: int, r: int) requires x == q * 4 + r && 0 <= r < 4 ensures x / 4 == q && x % 4 == r {}
  lemma Div8(x: int, q: int, r: int) requires x == q * 8 + r && 0 <= r < 8 ensures x / 8 == q && x % 8 == r {}
  lemma Div16(x: int, q: int, r: int) requires x == q * 16 + r && 0 <= r < 16 ensures x / 16 == q && x % 16 == r {}
  lemma Div32(x: int, q: int, r: int) requires x == q * 32 + r && 0 <= r < 32 ensures x / 32 == q && x % 32 == r {}
  lemma Div64(x: int, q: int, r: int) requires x == q * 64 + r && 0 <= r < 64 ensures x / 64 == q && x % 64 == r {}
  lemma Div1024(x: int, q: int, r: int) requires x == q * 1024 + r && 0 <= r < 1024 ensures x / 1024 == q && x % 1024 == r {}
  lemma Div4096(x: int, q: int, r: int) requires x == q * 4096 + r && 0 <= r < 4096 ensures x / 4096 == q && x % 4096 == r {}
  lemma Div262144(x: int, q: int, r: int)
    requires x == q * 262144 + r && 0 <= r < 262144
    ensures x / 262144 == q && x % 262144 == r
  {
  }

  /** The six-bit fields of a value below 2^18 and its top bits. */
  lemma Fields3(a: int, b: int, c: int)
    requires 0 <= a < 16 && 0 <= b < 64 && 0 <= c < 64
    ensures var v := a * 4096 + b * 64 + c;
      v / 4096 == a && (v / 64) % 64 == b && v % 64 == c
  {
    var v := a * 4096 + b * 64 + c;
    Div4096(v, a, b * 64 + c);
    Div64(v, a * 64 + b, c);
    Div64(a * 64 + b, a, b);
  }

  lemma Fields4(a: int, b: int, c: int, d: int)
    requires 0 <= a < 8 && 0 <= b < 64 && 0 <= c < 64 && 0 <= d < 64
    ensures var v := a * 262144 + b * 4096 + c * 64 + d;
      v / 262144 == a && (v / 4096) % 64 == b && (v / 64) % 64 == c && v % 64 == d
  {
    var v := a * 262144 + b * 4096 + c * 64 + d;
    Div262144(v, a, b * 4096 + c * 64 + d);
    Div4096(v, a * 64 + b, c * 64 + d);
    Div64(a * 64 + b, a, b);
    Div64(v, a * 4096 + b * 64 + c, d);
    Div64(a * 4096 + b * 64 + c, a * 64 + b, c);
  }

  // ---------------------------------------------------------------------------
  // Case maps

  /** Lower case leaves no upper-case letter, keeps every other byte and keeps
      the length; upper case is its mirror image. */
  lemma CaseMaps(s: seq<Byte>)
    ensures |Lower(s)| == |s| && |Upper(s)| == |s|
    ensures forall i :: 0 <= i < |s| ==> !('A' as int <= Lower(s)[i] <= 'Z' as int)
    ensures forall i :: 0 <= i < |s| ==> !('a' as int <= Upper(s)[i] <= 'z' as int)
    ensures forall i :: 0 <= i < |s| && !('A' as int <= s[i] <= 'Z' as int) ==> Lower(s)[i] == s[i]
    ensures forall i :: 0 <= i < |s| && !('a' as int <= s[i] <= 'z' as int) ==> Upper(s)[i] == s[i]
    ensures Lower(Upper(s)) == Lower(s) && Upper(Lower(s)) == Upper(s)
  {
  }

  // ---------------------------------------------------------------------------
  // ASCII

  /** Bytes below 0x80 decode to themselves in both decoders, and values
      below 0x80 encode back to that single byte in both encoders. */
  lemma {:induction false} AsciiIdentity(s: seq<Byte>)
    requires AllAscii(s)
    ensures Decode16(s) == s && Decode32(s) == s
    ensures Encode16(s) == s && Encode32(s) == s
  {
    if s != [] {
      AsciiIdentity(s[1..]);
    }
  }

  // ---------------------------------------------------------------------------
  // Decoded values

  lemma Value2Range(c1: Byte, c2: Byte)
    requires 0xC2 <= c1 < 0xE0 && IsCont(c2)
    ensures 0x80 <= Value2(c1, c2) < 0x800
  {
  }

  lemma Value3Range(c1: Byte, c2: Byte, c3: Byte)
    requires 0xE0 <= c1 < 0xF0 && Second3Ok(c1, c2) && IsCont(c3)
    ensures 0x800 <= Value3(c1, c2, c3) < 0x1_0000 && !IsSurrogate(Value3(c1, c2, c3))
  {
    assert c1 % 16 == c1 - 0xE0;
    assert c2 % 64 == c2 - 0x80;
    assert c3 % 64 == c3 - 0x80;
  }

  lemma Value4Range(c1: Byte, c2: Byte, c3: Byte, c4: Byte)
    requires 0xF0 <= c1 < 0xF5 && Second4Ok(c1, c2) && IsCont(c3) && IsCont(c4)
    ensures 0x1_0000 <= Value4(c1, c2, c3, c4) <= 0x10FFFF
  {
    assert c1 % 8 == c1 - 0xF0;
    assert c2 % 64 == c2 - 0x80;
  }

  // ---------------------------------------------------------------------------
  // What the decoders emit

  /** One turn of DecodeUTF32 emits only scalar values. */
  lemma Turn32Scalars(s: seq<Byte>)
    requires s != []
    ensures Turn32(s).Emit? ==> AllScalars(Turn32(s).out)
  {
    var c1 := s[0];
    if 0xC2 <= c1 < 0xE0 && |s| >= 2 && IsCont(s[1]) {
      Value2Range(c1, s[1]);
    } else if 0xE0 <= c1 < 0xF0 && |s| >= 3 && Second3Ok(c1, s[1]) && IsCont(s[2]) {
      Value3Range(c1, s[1], s[2]);
    } else if 0xF0 <= c1 < 0xF5 && |s| >= 4 && Second4Ok(c1, s[1]) && IsCont(s[2]) && IsCont(s[3]) {
      Value4Range(c1, s[1], s[2], s[3]);
    }
  }

  /** Every value DecodeUTF32 outputs is a Unicode scalar value: at most
      U+10FFFF and outside D800-DFFF. */
  lemma {:induction false} Decode32Scalars(s: seq<Byte>)
    ensures AllScalars(Decode32(s))
    decreases |s|
  {
    if s != [] && Turn32(s).Emit? {
      Turn32Scalars(s);
      Decode32Scalars(s[Turn32(s).len..]);
    }
  }

  lemma WellFormed16Single(v: Unit16)
    requires !IsSurrogate(v)
    ensures WellFormed16([v])
  {
    assert [v][1..] == [];
  }

  lemma WellFormed16Pair(h: Unit16, l: Unit16)
    requires IsHigh(h) && IsLow(l)
    ensures WellFormed16([h, l])
  {
    assert [h, l][2..] == [];
  }

  /** Joining two well-formed UTF-16 strings gives a well-formed one. */
  lemma {:induction false} WellFormed16Append(x: seq<Unit16>, y: seq<Unit16>)
    requires WellFormed16(x) && WellFormed16(y)
    ensures WellFormed16(x + y)
    decreases |x|
  {
    if x == [] {
      assert x + y == y;
    } else {
      var n := if IsHigh(x[0]) then 2 else 1;
      WellFormed16Append(x[n..], y);
      SliceAppend(x, y, n);
      assert (x + y)[0] == x[0];
      if n == 2 {
        assert (x + y)[1] == x[1];
      }
    }
  }

  /** One turn of DecodeUTF16 emits a well-formed piece of UTF-16: one unit
      outside the surrogates, or a high surrogate and then a low one. */
  lemma Turn16WellFormed(s: seq<Byte>)
    requires s != []
    ensures Turn16(s).Emit? ==> WellFormed16(Turn16(s).out)
  {
    var c1 := s[0];
    if c1 < 0x80 {
      WellFormed16Single(c1);
    } else if 0xC2 <= c1 < 0xE0 && |s| >= 2 && IsCont(s[1]) {
      Value2Range(c1, s[1]);
      WellFormed16Single(Value2(c1, s[1]));
    } else if 0xE0 <= c1 < 0xF0 && |s| >= 3 && Second3Ok(c1, s[1]) && IsCont(s[2]) {
      Value3Range(c1, s[1], s[2]);
      WellFormed16Single(Value3(c1, s[1], s[2]));
    } else if 0xF0 <= c1 < 0xF5 && |s| >= 4 && Second4Ok(c1, s[1]) && IsCont(s[2]) && IsCont(s[3])
              && Value4(c1, s[1], s[2], s[3]) <= 0x10FFFF {
      Pair4Lemma(c1, s[1], s[2], s[3]);
      WellFormed16Pair(HighOf(c1, s[1], s[2]), LowOf(s[2], s[3]));
    } else {
      assert Turn16(s).Emit? ==> Turn16(s).out == [];
    }
  }

  /** DecodeUTF16 never emits a lone surrogate: a four-byte sequence becomes a
      high surrogate in D800-DBFF followed by a low one in DC00-DFFF, and
      nothing else it emits is a surrogate (section 2.1 of RFC 2781). */
  lemma {:induction false} Decode16WellFormed(s: seq<Byte>)
    ensures WellFormed16(Decode16(s))
    decreases |s|
  {
    if s != [] && Turn16(s).Emit? {
      Turn16WellFormed(s);
      Decode16WellFormed(s[Turn16(s).len..]);
      WellFormed16Append(Turn16(s).out, Decode16(s[Turn16(s).len..]));
    }
  }

  // ---------------------------------------------------------------------------
  // What the decoders skip and reject

  /** Lead bytes 0x80-0xC1 and 0xF5-0xFF are skipped, and a multi-byte
      sequence cut short by the end of the input stops decoding. */
  lemma SkipsAndTruncation(c: Byte, rest: seq<Byte>)
    ensures (0x80 <= c < 0xC2 || 0xF5 <= c) ==>
      Decode16([c] + rest) == Decode16(rest) && Decode32([c] + rest) == Decode32(rest)
    ensures (0xC2 <= c < 0xE0 && |rest| < 1) || (0xE0 <= c < 0xF0 && |rest| < 2)
            || (0xF0 <= c < 0xF5 && |rest| < 3) ==>
      Decode16([c] + rest) == [] && Decode32([c] + rest) == []
  {
    assert ([c] + rest)[1..] == rest;
  }

  /** Overlong forms, surrogates and values above U+10FFFF are rejected as
      RFC 3629 section 4 demands: the sequence yields nothing and decoding
      resumes after it. */
  lemma RejectsIllFormed(c1: Byte, c2: Byte, c3: Byte, c4: Byte, rest: seq<Byte>)
    ensures c1 == 0xE0 && c2 < 0xA0 ==>
      Decode32([c1, c2, c3] + rest) == Decode32(rest) && Decode16([c1, c2, c3] + rest) == Decode16(rest)
    ensures c1 == 0xED && c2 >= 0xA0 ==>
      Decode32([c1, c2, c3] + rest) == Decode32(rest) && Decode16([c1, c2, c3] + rest) == Decode16(rest)
    ensures c1 == 0xF0 && c2 < 0x90 ==>
      Decode32([c1, c2, c3, c4] + rest) == Decode32(rest) && Decode16([c1, c2, c3, c4] + rest) == Decode16(rest)
    ensures c1 == 0xF4 && c2 >= 0x90 ==>
      Decode32([c1, c2, c3, c4] + rest) == Decode32(rest) && Decode16([c1, c2, c3, c4] + rest) == Decode16(rest)
  {
    assert ([c1, c2, c3] + rest)[3..] == rest;
    assert ([c1, c2, c3, c4] + rest)[4..] == rest;
  }

  /** The two decoders part ways on a two-byte lead followed by a byte that is
      not a continuation byte: DecodeUTF16 consumes that byte, DecodeUTF32
      reads it again as the next lead byte. */
  lemma {:induction false} TwoByteDivergence(c1: Byte, c2: Byte, rest: seq<Byte>)
    requires 0xC2 <= c1 < 0xE0 && !IsCont(c2)
    ensures Decode16([c1, c2] + rest) == Decode16(rest)
    ensures Decode32([c1, c2] + rest) == Decode32([c2] + rest)
  {
    assert ([c1, c2] + rest)[2..] == rest;
    assert ([c1, c2] + rest)[1..] == [c2] + rest;
  }

  /** The bytes C3 41 decode to nothing as UTF-16 but to U+0041 as UTF-32. */
  lemma DivergenceExample()
    ensures Decode16([0xC3, 0x41]) == []
    ensures Decode32([0xC3, 0x41]) == [0x41]
  {
    TwoByteDivergence(0xC3, 0x41, []);
    assert [0xC3, 0x41] + [] == [0xC3, 0x41];
    assert Decode32([0x41]) == [0x41] + Decode32([]);
  }

  // ---------------------------------------------------------------------------
  // Encoders

  /** EncodeUTF(u16): a lone low surrogate is skipped, a high surrogate
      followed by anything but a low surrogate drops both units, and a high
      surrogate as the last unit ends the output. */
  lemma Encode16Surrogates(w: Unit16, w2: Unit16, rest: seq<Unit16>)
    ensures IsLow(w) ==> Encode16([w] + rest) == Encode16(rest)
    ensures IsHigh(w) && !IsLow(w2) ==> Encode16([w, w2] + rest) == Encode16(rest)
    ensures IsHigh(w) ==> Encode16([w]) == []
  {
    assert ([w] + rest)[1..] == rest;
    assert ([w, w2] + rest)[2..] == rest;
  }

  /** EncodeUTF(u32) stops at the first unit that is a surrogate or above
      0x10FFFF: nothing from that unit on appears in the output. */
  lemma {:induction false} Encode32StopsAtInvalid(u: seq<Unit32>, k: nat)
    requires k < |u| && AllScalars(u[..k]) && !IsScalar(u[k])
    ensures Encode32(u) == Encode32(u[..k])
  {
    if k == 0 {
      assert u[..0] == [];
    } else {
      assert u[1..][..k - 1] == u[1..k];
      assert u[..k][1..] == u[1..k];
      Encode32StopsAtInvalid(u[1..], k - 1);
    }
  }

  // ---------------------------------------------------------------------------
  // Encoding then decoding one value

  lemma Enc2Dec(w: int)
    requires 0x80 <= w < 0x800
    ensures var e := Enc2(w);
      0xC2 <= e[0] < 0xE0 && IsCont(e[1]) && Value2(e[0], e[1]) == w
  {
    var q, r := w / 64, w % 64;
    Div32(0xC0 + q, 6, q);
    Div64(0x80 + r, 2, r);
  }

  lemma Enc3Dec(w: int)
    requires 0x800 <= w < 0x1_0000 && !IsSurrogate(w)
    ensures var e := Enc3(w);
      0xE0 <= e[0] < 0xF0 && Second3Ok(e[0], e[1]) && IsCont(e[2]) && Value3(e[0], e[1], e[2]) == w
  {
    var q, c := w / 64, w % 64;
    var a, b := q / 64, q % 64;
    Div4096(w, a, b * 64 + c);
    Div16(0xE0 + a, 14, a);
    Div64(0x80 + b, 2, b);
    Div64(0x80 + c, 2, c);
  }

  /** The four bytes of EncodeUTF(u32) carry the value's fields. */
  lemma Enc4Fields(w: int, a: int, b: int, c: int, d: int)
    requires 0 <= w <= 0x10FFFF && w == a * 262144 + b * 4096 + c * 64 + d
    requires 0 <= a < 8 && 0 <= b < 64 && 0 <= c < 64 && 0 <= d < 64
    ensures Enc4(w) == [0xF0 + a, 0x80 + b, 0x80 + c, 0x80 + d]
  {
    Fields4(a, b, c, d);
  }

  /** DecodeUTF32 reassembles the value from those fields. */
  lemma Value4Fields(c1: Byte, c2: Byte, c3: Byte, c4: Byte, a: int, b: int, c: int, d: int)
    requires c1 == 0xF0 + a && c2 == 0x80 + b && c3 == 0x80 + c && c4 == 0x80 + d
    requires 0 <= a < 8 && 0 <= b < 64 && 0 <= c < 64 && 0 <= d < 64
    ensures Value4(c1, c2, c3, c4) == a * 262144 + b * 4096 + c * 64 + d
  {
    Div8(c1, 30, a);
    Div64(c2, 2, b);
    Div64(c3, 2, c);
    Div64(c4, 2, d);
  }

  lemma Enc4Dec(w: int)
    requires 0x1_0000 <= w <= 0x10FFFF
    ensures var e := Enc4(w);
      0xF0 <= e[0] < 0xF5 && Second4Ok(e[0], e[1]) && IsCont(e[2]) && IsCont(e[3])
      && Value4(e[0], e[1], e[2], e[3]) == w
  {
    var q1, d := w / 64, w % 64;
    var q2, c := q1 / 64, q1 % 64;
    var a, b := q2 / 64, q2 % 64;
    assert w == a * 262144 + b * 4096 + c * 64 + d;
    Enc4Fields(w, a, b, c, d);
    var e := Enc4(w);
    Value4Fields(e[0], e[1], e[2], e[3], a, b, c, d);
  }

  /** One turn of DecodeUTF32 on the bytes EncodeUTF(u32) writes for a scalar
      value emits that value; it moves on by the whole sequence, except after
      a two-byte lead, where it moves on by one. */
  lemma Turn32Enc(w: int, rest: seq<Byte>)
    requires IsScalar(w)
    ensures Turn32(EncodeScalar(w) + rest)
         == Emit([w], if 0x80 <= w < 0x800 then 1 else |EncodeScalar(w)|)
  {
    var e := EncodeScalar(w);
    var s := e + rest;
    if w < 0x80 {
      assert s[0] == w;
    } else if w < 0x800 {
      Enc2Dec(w);
      assert s[0] == e[0] && s[1] == e[1];
    } else if w < 0x1_0000 {
      Enc3Dec(w);
      assert s[0] == e[0] && s[1] == e[1] && s[2] == e[2];
    } else {
      Enc4Dec(w);
      assert s[0] == e[0] && s[1] == e[1] && s[2] == e[2] && s[3] == e[3];
    }
  }

  /** A continuation byte read as a lead byte is skipped. */
  lemma Decode32Cont(c: Byte, t: seq<Byte>)
    requires IsCont(c)
    ensures Decode32([c] + t) == Decode32(t)
  {
    DropPrefix([c], t);
  }

  /** Decoding the bytes EncodeUTF(u32) writes for one scalar value gives that
      value back and stops exactly where the next sequence starts. */
  lemma DecodeEncodeScalar(w: int, rest: seq<Byte>)
    requires IsScalar(w)
    ensures Decode32(EncodeScalar(w) + rest) == [w] + Decode32(rest)
  {
    var e := EncodeScalar(w);
    Turn32Enc(w, rest);
    if 0x80 <= w < 0x800 {
      Enc2Dec(w);
      assert (e + rest)[1..] == [e[1]] + rest;
      Decode32Cont(e[1], rest);
    } else {
      DropPrefix(e, rest);
    }
  }

  /** EncodeUTF(u32) writes 1, 2, 3 or 4 bytes for a scalar value, split at
      0x80, 0x800 and 0x10000, each sequence well-formed UTF-8. */
  lemma EncodeScalarShape(w: int)
    requires IsScalar(w)
    ensures |EncodeScalar(w)| == (if w < 0x80 then 1 else if w < 0x800 then 2
                                  else if w < 0x1_0000 then 3 else 4)
    ensures WellFormed8(EncodeScalar(w))
  {
    var e := EncodeScalar(w);
    if w < 0x80 {
      assert e[1..] == [];
    } else if w < 0x800 {
      Enc2Dec(w);
      assert e[2..] == [];
    } else if w < 0x1_0000 {
      Enc3Dec(w);
      assert e[3..] == [];
    } else {
      Enc4Dec(w);
      assert e[4..] == [];
    }
  }

  // ---------------------------------------------------------------------------
  // Decoding then encoding one sequence

  lemma Dec2Enc(c1: Byte, c2: Byte)
    requires 0xC2 <= c1 <= 0xDF && IsCont(c2)
    ensures IsScalar(Value2(c1, c2)) && EncodeScalar(Value2(c1, c2)) == [c1, c2]
  {
    Div32(c1, 6, c1 - 0xC0);
    Div64(c2, 2, c2 - 0x80);
    Div64(Value2(c1, c2), c1 - 0xC0, c2 - 0x80);
  }

  lemma Dec3Enc(c1: Byte, c2: Byte, c3: Byte)
    requires 0xE0 <= c1 <= 0xEF && Second3Ok(c1, c2) && IsCont(c3)
    ensures IsScalar(Value3(c1, c2, c3)) && EncodeScalar(Value3(c1, c2, c3)) == [c1, c2, c3]
  {
    var a, b, c := c1 - 0xE0, c2 - 0x80, c3 - 0x80;
    Div16(c1, 14, a);
    Div64(c2, 2, b);
    Div64(c3, 2, c);
    Value3Range(c1, c2, c3);
    Fields3(a, b, c);
  }

  lemma Dec4Enc(c1: Byte, c2: Byte, c3: Byte, c4: Byte)
    requires 0xF0 <= c1 <= 0xF4 && Second4Ok(c1, c2) && IsCont(c3) && IsCont(c4)
    ensures IsScalar(Value4(c1, c2, c3, c4))
    ensures EncodeScalar(Value4(c1, c2, c3, c4)) == [c1, c2, c3, c4]
  {
    var a, b, c, d := c1 - 0xF0, c2 - 0x80, c3 - 0x80, c4 - 0x80;
    Value4Fields(c1, c2, c3, c4, a, b, c, d);
    Value4Range(c1, c2, c3, c4);
    Enc4Fields(Value4(c1, c2, c3, c4), a, b, c, d);
  }

  // ---------------------------------------------------------------------------
  // Surrogate pairs, written with the bit fields of
  //   c1 = F0 + a,  c2 = 80 + 16b + c,  c3 = 80 + 16d + e,  c4 = 80 + f
  //   w1 = D800 + 64(4a + b - 1) + 4c + d,  w2 = DC00 + 64e + f

  predicate PairFields(a: int, b: int, c: int, d: int, e: int, f: int) {
    0 <= a && 0 <= b < 4 && 1 <= 4 * a + b <= 16
    && 0 <= c < 16 && 0 <= d < 4 && 0 <= e < 16 && 0 <= f < 64
  }

  /** What DecodeUTF16 computes from the four bytes. */
  lemma BytesToPair(c1: Byte, c2: Byte, c3: Byte, c4: Byte, a: int, b: int, c: int, d: int, e: int, f: int)
    requires PairFields(a, b, c, d, e, f)
    requires c1 == 0xF0 + a && c2 == 0x80 + 16 * b + c && c3 == 0x80 + 16 * d + e && c4 == 0x80 + f
    ensures HighOf(c1, c2, c3) == 0xD800 + 64 * (4 * a + b - 1) + 4 * c + d
    ensures LowOf(c3, c4) == 0xDC00 + 64 * e + f
    ensures Value4(c1, c2, c3, c4) == (4 * a + b) * 65536 + (4 * c + d) * 1024 + 64 * e + f
  {
    Div8(c1, 30, a);
    Div64(c2, 2, 16 * b + c);
    Div16(16 * b + c, b, c);
    Div16(c2, 8 + b, c);
    Div64(c3, 2, 16 * d + e);
    Div16(16 * d + e, d, e);
    Div16(c3, 8 + d, e);
    Div64(c4, 2, f);
  }

  /** What EncodeUTF(u16) computes from the two units. */
  lemma PairToBytes(w1: Unit16, w2: Unit16, a: int, b: int, c: int, d: int, e: int, f: int)
    requires PairFields(a, b, c, d, e, f)
    requires w1 == 0xD800 + 64 * (4 * a + b - 1) + 4 * c + d && w2 == 0xDC00 + 64 * e + f
    ensures EncPair(w1, w2) == [0xF0 + a, 0x80 + 16 * b + c, 0x80 + 16 * d + e, 0x80 + f]
    ensures PairValue(w1, w2) == (4 * a + b) * 65536 + (4 * c + d) * 1024 + 64 * e + f
  {
    Div1024(w1, 54, 64 * (4 * a + b - 1) + 4 * c + d);
    Div64(64 * (4 * a + b - 1) + 4 * c + d, 4 * a + b - 1, 4 * c + d);
    Div64(w1, 54 * 16 + 4 * a + b - 1, 4 * c + d);
    Div4(4 * c + d, c, d);
    Div4(w1, 54 * 256 + 16 * (4 * a + b - 1) + c, d);
    Div4(4 * a + b, a, b);
    Div1024(w2, 55, 64 * e + f);
    Div64(64 * e + f, e, f);
    Div64(w2, 55 * 16 + e, f);
  }

  /** The surrogate pair DecodeUTF16 builds from a well-formed four-byte
      sequence is encoded by EncodeUTF(u16) as that same sequence. */
  lemma PairDecEnc(c1: Byte, c2: Byte, c3: Byte, c4: Byte)
    requires 0xF0 <= c1 <= 0xF4 && Second4Ok(c1, c2) && IsCont(c3) && IsCont(c4)
    ensures var h, l := HighOf(c1, c2, c3), LowOf(c3, c4);
      IsHigh(h) && IsLow(l) && PairValue(h, l) <= 0x10FFFF && EncPair(h, l) == [c1, c2, c3, c4]
  {
    var a, b, c := c1 - 0xF0, (c2 - 0x80) / 16, (c2 - 0x80) % 16;
    var d, e, f := (c3 - 0x80) / 16, (c3 - 0x80) % 16, c4 - 0x80;
    assert c2 == 0x80 + 16 * b + c && c3 == 0x80 + 16 * d + e;
    assert 1 <= 4 * a + b <= 16 by {
      if c1 == 0xF0 { assert 0x90 <= c2; } else if c1 == 0xF4 { assert c2 <= 0x8F; }
    }
    BytesToPair(c1, c2, c3, c4, a, b, c, d, e, f);
    PairToBytes(HighOf(c1, c2, c3), LowOf(c3, c4), a, b, c, d, e, f);
  }

  /** The four bytes EncodeUTF(u16) writes for a surrogate pair are a
      well-formed sequence from which DecodeUTF16 builds that pair again. */
  lemma PairEncDec(w1: Unit16, w2: Unit16)
    requires IsHigh(w1) && IsLow(w2)
    ensures PairValue(w1, w2) <= 0x10FFFF
    ensures var p := EncPair(w1, w2);
      0xF0 <= p[0] <= 0xF4 && Second4Ok(p[0], p[1]) && IsCont(p[2]) && IsCont(p[3])
      && Value4(p[0], p[1], p[2], p[3]) <= 0x10FFFF
      && HighOf(p[0], p[1], p[2]) == w1 && LowOf(p[2], p[3]) == w2
  {
    var x, y := w1 - 0xD800, w2 - 0xDC00;
    var q, m := x / 64, x % 64;
    var c, d := m / 4, m % 4;
    var e, f := y / 64, y % 64;
    var a, b := (q + 1) / 4, (q + 1) % 4;
    assert w1 == 0xD800 + 64 * (4 * a + b - 1) + 4 * c + d;
    assert w2 == 0xDC00 + 64 * e + f;
    PairToBytes(w1, w2, a, b, c, d, e, f);
    var p := EncPair(w1, w2);
    BytesToPair(p[0], p[1], p[2], p[3], a, b, c, d, e, f);
  }

  /** One turn of DecodeUTF16 on those four bytes emits the pair. */
  lemma Turn16Pair(w1: Unit16, w2: Unit16, rest: seq<Byte>)
    requires IsHigh(w1) && IsLow(w2)
    ensures Turn16(EncPair(w1, w2) + rest) == Emit([w1, w2], 4)
  {
    PairEncDec(w1, w2);
    var p := EncPair(w1, w2);
    var s := p + rest;
    assert s[0] == p[0] && s[1] == p[1] && s[2] == p[2] && s[3] == p[3];
  }

  // ---------------------------------------------------------------------------
  // One well-formed sequence at the head of the input

  /** Length of the UTF-8 sequence a well-formed lead byte starts. */
  function SeqLen(c1: Byte): nat {
    if c1 < 0x80 then 1 else if c1 < 0xE0 then 2 else if c1 < 0xF0 then 3 else 4
  }

  /** A well-formed input starts with a whole sequence, and what follows it is
      well-formed again. */
  lemma WellFormedHead(b: seq<Byte>)
    requires b != [] && WellFormed8(b)
    ensures SeqLen(b[0]) <= |b| && WellFormed8(b[SeqLen(b[0])..])
    ensures b[0] < 0x80 || 0xC2 <= b[0] <= 0xF4
  {
  }

  /** The code point of the sequence at the head of well-formed input. */
  function HeadValue(b: seq<Byte>): int
    requires b != [] && WellFormed8(b)
  {
    var c1 := b[0];
    if c1 < 0x80 then c1
    else if c1 < 0xE0 then Value2(c1, b[1])
    else if c1 < 0xF0 then Value3(c1, b[1], b[2])
    else Value4(c1, b[1], b[2], b[3])
  }

  /** That code point is a scalar value, and EncodeUTF(u32) writes it back as
      exactly the bytes it came from. */
  lemma HeadScalar(b: seq<Byte>)
    requires b != [] && WellFormed8(b)
    ensures SeqLen(b[0]) <= |b|
    ensures IsScalar(HeadValue(b)) && EncodeScalar(HeadValue(b)) == b[..SeqLen(b[0])]
  {
    WellFormedHead(b);
    var c1 := b[0];
    if c1 < 0x80 {
      assert b[..1] == [c1];
    } else if c1 < 0xE0 {
      Dec2Enc(c1, b[1]);
      Take2(b);
    } else if c1 < 0xF0 {
      Dec3Enc(c1, b[1], b[2]);
      Take3(b);
    } else {
      Dec4Enc(c1, b[1], b[2], b[3]);
      Take4(b);
    }
  }

  /** One turn of DecodeUTF32 on well-formed input emits the code point of
      the sequence at its head, whatever follows the sequence. */
  lemma Turn32Head(b: seq<Byte>, t: seq<Byte>)
    requires b != [] && WellFormed8(b)
    ensures Turn32(b + t) == Emit([HeadValue(b)], if 0xC2 <= b[0] < 0xE0 then 1 else SeqLen(b[0]))
  {
    WellFormedHead(b);
    var c1, s := b[0], b + t;
    assert s[0] == c1;
    if c1 < 0x80 {
    } else if c1 < 0xE0 {
      assert s[1] == b[1];
    } else if c1 < 0xF0 {
      assert s[1] == b[1] && s[2] == b[2];
    } else {
      assert s[1] == b[1] && s[2] == b[2] && s[3] == b[3];
    }
  }

  /** DecodeUTF32 turns the sequence at the head of well-formed input into its
      code point whatever follows it. */
  lemma Decode32Head(b: seq<Byte>, t: seq<Byte>)
    requires b != [] && WellFormed8(b)
    ensures SeqLen(b[0]) <= |b|
    ensures Decode32(b + t) == [HeadValue(b)] + Decode32(b[SeqLen(b[0])..] + t)
  {
    WellFormedHead(b);
    Turn32Head(b, t);
    var c1, k, s := b[0], SeqLen(b[0]), b + t;
    if 0xC2 <= c1 < 0xE0 {
      assert s[1..] == [b[1]] + s[2..];
      Decode32Cont(b[1], s[2..]);
    }
    SliceAppend(b, t, k);
  }

  /** The same with nothing after the input. */
  lemma Decode32HeadEnd(b: seq<Byte>)
    requires b != [] && WellFormed8(b)
    ensures SeqLen(b[0]) <= |b|
    ensures Decode32(b) == [HeadValue(b)] + Decode32(b[SeqLen(b[0])..])
  {
    Decode32Head(b, []);
    AppendNil(b);
    AppendNil(b[SeqLen(b[0])..]);
  }

  /** The code units DecodeUTF16 emits for the sequence at the head of
      well-formed input. */
  function HeadUnits(b: seq<Byte>): seq<Unit16>
    requires b != [] && WellFormed8(b)
  {
    var c1 := b[0];
    if c1 < 0x80 then [c1]
    else if c1 < 0xE0 then (Value2Range(c1, b[1]); [Value2(c1, b[1])])
    else if c1 < 0xF0 then (Value3Range(c1, b[1], b[2]); [Value3(c1, b[1], b[2])])
    else
      Value4Range(c1, b[1], b[2], b[3]);
      Pair4Lemma(c1, b[1], b[2], b[3]);
      [HighOf(c1, b[1], b[2]), LowOf(b[2], b[3])]
  }

  /** One turn of DecodeUTF16 on well-formed input emits those units and
      consumes the whole sequence, whatever follows it. */
  lemma Turn16Head(b: seq<Byte>, t: seq<Byte>)
    requires b != [] && WellFormed8(b)
    ensures Turn16(b + t) == Emit(HeadUnits(b), SeqLen(b[0]))
  {
    WellFormedHead(b);
    var c1, s := b[0], b + t;
    assert s[0] == c1;
    if c1 < 0x80 {
    } else if c1 < 0xE0 {
      assert s[1] == b[1];
    } else if c1 < 0xF0 {
      assert s[1] == b[1] && s[2] == b[2];
    } else {
      Value4Range(c1, b[1], b[2], b[3]);
      assert s[1] == b[1] && s[2] == b[2] && s[3] == b[3];
    }
  }

  lemma Decode16Head(b: seq<Byte>, t: seq<Byte>)
    requires b != [] && WellFormed8(b)
    ensures SeqLen(b[0]) <= |b|
    ensures Decode16(b + t) == HeadUnits(b) + Decode16(b[SeqLen(b[0])..] + t)
  {
    WellFormedHead(b);
    Turn16Head(b, t);
    SliceAppend(b, t, SeqLen(b[0]));
  }

  lemma Decode16HeadEnd(b: seq<Byte>)
    requires b != [] && WellFormed8(b)
    ensures SeqLen(b[0]) <= |b|
    ensures Decode16(b) == HeadUnits(b) + Decode16(b[SeqLen(b[0])..])
  {
    Decode16Head(b, []);
    AppendNil(b);
    AppendNil(b[SeqLen(b[0])..]);
  }

  /** One turn of EncodeUTF(u16) on those units writes back exactly the bytes
      they came from and consumes all of them. */
  lemma EncTurnHead(b: seq<Byte>, r: seq<Unit16>)
    requires b != [] && WellFormed8(b)
    ensures SeqLen(b[0]) <= |b|
    ensures EncTurn16(HeadUnits(b) + r) == Emit(b[..SeqLen(b[0])], |HeadUnits(b)|)
  {
    WellFormedHead(b);
    var c1, h := b[0], HeadUnits(b);
    var u := h + r;
    assert u[0] == h[0];
    if c1 < 0x80 {
      assert b[..1] == [c1];
    } else if c1 < 0xE0 {
      Dec2Enc(c1, b[1]);
      Take2(b);
    } else if c1 < 0xF0 {
      Dec3Enc(c1, b[1], b[2]);
      Take3(b);
    } else {
      PairDecEnc(c1, b[1], b[2], b[3]);
      Take4(b);
      assert u[1] == h[1];
    }
  }

  lemma EncodeHeadUnits(b: seq<Byte>, r: seq<Unit16>)
    requires b != [] && WellFormed8(b)
    ensures SeqLen(b[0]) <= |b|
    ensures Encode16(HeadUnits(b) + r) == b[..SeqLen(b[0])] + Encode16(r)
  {
    WellFormedHead(b);
    EncTurnHead(b, r);
    DropPrefix(HeadUnits(b), r);
  }

  // ---------------------------------------------------------------------------
  // Round trips

  /** DecodeUTF32(EncodeUTF(s)) == s for every sequence of scalar values. */
  lemma {:induction false} DecodeEncode32(u: seq<Unit32>)
    requires AllScalars(u)
    ensures Decode32(Encode32(u)) == u
  {
    if u != [] {
      DecodeEncode32(u[1..]);
      DecodeEncodeScalar(u[0], Encode32(u[1..]));
    }
  }

  /** EncodeUTF(u32) writes a scalar value and then the rest. */
  lemma Encode32Cons(v: Unit32, x: seq<Unit32>)
    requires IsScalar(v)
    ensures Encode32([v] + x) == EncodeScalar(v) + Encode32(x)
  {
    DropPrefix([v], x);
  }

  /** EncodeUTF(DecodeUTF32(b)) == b for well-formed UTF-8. */
  lemma {:induction false} EncodeDecode32(b: seq<Byte>)
    requires WellFormed8(b)
    ensures Encode32(Decode32(b)) == b
    decreases |b|
  {
    if b != [] {
      var k := SeqLen(b[0]);
      WellFormedHead(b);
      HeadScalar(b);
      Decode32HeadEnd(b);
      Encode32Cons(HeadValue(b), Decode32(b[k..]));
      EncodeDecode32(b[k..]);
      SplitAt(b, k);
    }
  }

  /** One turn of EncodeUTF(u16) on well-formed UTF-16 writes bytes from which
      one turn of DecodeUTF16 gives back exactly the units it consumed. */
  lemma Turn16OfEncoded(u: seq<Unit16>, rest: seq<Byte>)
    requires u != [] && WellFormed16(u)
    ensures EncTurn16(u).Emit?
    ensures Turn16(EncTurn16(u).out + rest) == Emit(u[..EncTurn16(u).len], |EncTurn16(u).out|)
  {
    var w := u[0];
    var e := EncTurn16(u).out;
    var s := e + rest;
    if IsHigh(w) {
      Turn16Pair(w, u[1], rest);
      Take2(u);
    } else {
      assert u[..1] == [w];
      if w < 0x80 {
        assert s[0] == w;
      } else if w < 0x800 {
        Enc2Dec(w);
        assert s[0] == e[0] && s[1] == e[1];
      } else {
        Enc3Dec(w);
        assert s[0] == e[0] && s[1] == e[1] && s[2] == e[2];
      }
    }
  }

  /** DecodeUTF16(EncodeUTF(u)) == u for well-formed UTF-16. */
  lemma {:induction false} DecodeEncode16(u: seq<Unit16>)
    requires WellFormed16(u)
    ensures Decode16(Encode16(u)) == u
    decreases |u|
  {
    if u != [] {
      var n := EncTurn16(u).len;
      var e := EncTurn16(u).out;
      Turn16OfEncoded(u, Encode16(u[n..]));
      assert WellFormed16(u[n..]);
      DecodeEncode16(u[n..]);
      DropPrefix(e, Encode16(u[n..]));
      SplitAt(u, n);
    }
  }

  /** EncodeUTF(DecodeUTF16(b)) == b for well-formed UTF-8: in particular the
      surrogate pair DecodeUTF16 builds for a four-byte sequence is turned back
      into that sequence. */
  lemma {:induction false} EncodeDecode16(b: seq<Byte>)
    requires WellFormed8(b)
    ensures Encode16(Decode16(b)) == b
    decreases |b|
  {
    if b != [] {
      var k := SeqLen(b[0]);
      WellFormedHead(b);
      Decode16HeadEnd(b);
      EncodeHeadUnits(b, Decode16(b[k..]));
      EncodeDecode16(b[k..]);
      SplitAt(b, k);
    }
  }

  // ---------------------------------------------------------------------------
  // Concatenation

  /** Decoding a well-formed prefix does not depend on what follows it. */
  lemma {:induction false} Decode32Append(s: seq<Byte>, t: seq<Byte>)
    requires WellFormed8(s)
    ensures Decode32(s + t) == Decode32(s) + Decode32(t)
    decreases |s|
  {
    if s == [] {
      assert s + t == t;
    } else {
      var k := SeqLen(s[0]);
      WellFormedHead(s);
      Decode32Head(s, t);
      Decode32HeadEnd(s);
      Decode32Append(s[k..], t);
      ConsAssoc(HeadValue(s), Decode32(s[k..]), Decode32(t), Decode32(s + t), Decode32(s));
    }
  }

  lemma {:induction false} Decode16Append(s: seq<Byte>, t: seq<Byte>)
    requires WellFormed8(s)
    ensures Decode16(s + t) == Decode16(s) + Decode16(t)
    decreases |s|
  {
    if s == [] {
      assert s + t == t;
    } else {
      var k := SeqLen(s[0]);
      WellFormedHead(s);
      Decode16Head(s, t);
      Decode16HeadEnd(s);
      Decode16Append(s[k..], t);
      AppendAssoc(HeadUnits(s), Decode16(s[k..]), Decode16(t), Decode16(s + t), Decode16(s));
    }
  }
}

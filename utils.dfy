/**
 * The string helpers of utils.cpp as the loops they are: each method walks
 * its input with an index in place of the source's iterator and is proved to
 * compute the function of module Utf that specifies it.
 */
module Utils {
  import opened Utf

  /** LowerCase: a copy of the string with tolower applied to every byte in
      place. */
  method LowerCase(s: seq<Byte>) returns (r: seq<Byte>)
    ensures r == Lower(s)
  {
    var buf := new Byte[|s|](i requires 0 <= i < |s| => s[i]);
    for i := 0 to buf.Length
      invariant buf[..i] == Lower(s)[..i]
      invariant buf[i..] == s[i..]
    {
      buf[i] := ToLower(buf[i]);
    }
    r := buf[..];
  }

  /** UpperCase: the same with toupper. */
  method UpperCase(s: seq<Byte>) returns (r: seq<Byte>)
    ensures r == Upper(s)
  {
    var buf := new Byte[|s|](i requires 0 <= i < |s| => s[i]);
    for i := 0 to buf.Length
      invariant buf[..i] == Upper(s)[..i]
      invariant buf[i..] == s[i..]
    {
      buf[i] := ToUpper(buf[i]);
    }
    r := buf[..];
  }

  // Unfolding the specifications once at position i.

  lemma Decode16At(s: seq<Byte>, i: nat, out: seq<Unit16>, n: nat)
    requires i < |s| && Turn16(s[i..]) == Emit(out, n)
    ensures i + n <= |s| && Decode16(s[i..]) == out + Decode16(s[i + n..])
  {
    assert s[i..][n..] == s[i + n..];
  }

  lemma Decode16Halt(s: seq<Byte>, i: nat)
    requires i < |s| && Turn16(s[i..]) == Halt
    ensures Decode16(s[i..]) == []
  {
  }

  lemma Decode32At(s: seq<Byte>, i: nat, out: seq<Unit32>, n: nat)
    requires i < |s| && Turn32(s[i..]) == Emit(out, n)
    ensures i + n <= |s| && Decode32(s[i..]) == out + Decode32(s[i + n..])
  {
    assert s[i..][n..] == s[i + n..];
  }

  lemma Decode32Halt(s: seq<Byte>, i: nat)
    requires i < |s| && Turn32(s[i..]) == Halt
    ensures Decode32(s[i..]) == []
  {
  }

  lemma Encode16At(u: seq<Unit16>, i: nat, out: seq<Byte>, n: nat)
    requires i < |u| && EncTurn16(u[i..]) == Emit(out, n)
    ensures i + n <= |u| && Encode16(u[i..]) == out + Encode16(u[i + n..])
  {
    assert u[i..][n..] == u[i + n..];
  }

  lemma Encode16Halt(u: seq<Unit16>, i: nat)
    requires i < |u| && EncTurn16(u[i..]) == Halt
    ensures Encode16(u[i..]) == []
  {
  }

  /** At the end of the input the rest of the output is empty. */
  lemma AtEnd<T, U>(s: seq<T>, i: nat, r: seq<U>)
    requires i == |s|
    ensures s[i..] == [] && r + [] == r
  {
  }

  /** The loop invariant `r + Spec(rest) == Spec(whole)` carried over one
      turn that appended `out` and left `rest'` with `Spec(rest) == out + Spec(rest')`. */
  lemma Advance<T>(r: seq<T>, out: seq<T>, next: seq<T>, rest: seq<T>, whole: seq<T>)
    requires r + rest == whole && rest == out + next
    ensures (r + out) + next == whole
  {
  }

  /** The body of DecodeUTF16's loop with the iterator at i: the code units it
      pushes, how far the iterator moves (its closing `++it` included), or
      that the loop breaks. */
  method DecodeTurn16(s: seq<Byte>, i: nat) returns (out: seq<Unit16>, n: nat, halt: bool)
    requires i < |s|
    ensures halt ==> Turn16(s[i..]) == Halt
    ensures !halt ==> Turn16(s[i..]) == Emit(out, n)
  {
    ghost var t := s[i..];
    assert t[0] == s[i];
    out, n, halt := [], 1, false;
    var c1 := s[i];
    if c1 < 0x80 {
      out := [c1];
    } else if c1 < 0xC2 {
    } else if c1 < 0xE0 {
      if |s| - i < 2 {
        halt := true;
        return;
      }
      var c2 := s[i + 1];
      assert t[1] == c2;
      n := 2;
      if IsCont(c2) {
        out := [Value2(c1, c2)];
      }
    } else if c1 < 0xF0 {
      if |s| - i < 3 {
        halt := true;
        return;
      }
      var c2, c3 := s[i + 1], s[i + 2];
      assert t[1] == c2 && t[2] == c3;
      n := 3;
      if Second3Ok(c1, c2) && IsCont(c3) {
        out := [Value3(c1, c2, c3)];
      }
    } else if c1 < 0xF5 {
      if |s| - i < 4 {
        halt := true;
        return;
      }
      var c2, c3, c4 := s[i + 1], s[i + 2], s[i + 3];
      assert t[1] == c2 && t[2] == c3 && t[3] == c4;
      n := 4;
      if Second4Ok(c1, c2) && IsCont(c3) && IsCont(c4) && Value4(c1, c2, c3, c4) <= 0x10FFFF {
        Pair4Lemma(c1, c2, c3, c4);
        out := [HighOf(c1, c2, c3), LowOf(c3, c4)];
      }
    }
  }

  /** DecodeUTF16: UTF-8 to UTF-16 code units. */
  method DecodeUTF16(s: seq<Byte>) returns (r: seq<Unit16>)
    ensures r == Decode16(s)
  {
    r := [];
    var i := 0;
    while i < |s|
      invariant 0 <= i <= |s|
      invariant r + Decode16(s[i..]) == Decode16(s)
    {
      var out, n, halt := DecodeTurn16(s, i);
      if halt {
        Decode16Halt(s, i);
        AppendNil(r);
        break;
      }
      Decode16At(s, i, out, n);
      Advance(r, out, Decode16(s[i + n..]), Decode16(s[i..]), Decode16(s));
      r := r + out;
      i := i + n;
    }
    if i == |s| {
      AtEnd(s, i, r);
    }
  }

  /** The body of DecodeUTF32's loop with the iterator at i. */
  method DecodeTurn32(s: seq<Byte>, i: nat) returns (out: seq<Unit32>, n: nat, halt: bool)
    requires i < |s|
    ensures halt ==> Turn32(s[i..]) == Halt
    ensures !halt ==> Turn32(s[i..]) == Emit(out, n)
  {
    ghost var t := s[i..];
    assert t[0] == s[i];
    out, n, halt := [], 1, false;
    var c1 := s[i];
    if c1 < 0x80 {
      out := [c1];
    } else if c1 < 0xC2 {
    } else if c1 < 0xE0 {
      if |s| - i < 2 {
        halt := true;
        return;
      }
      // `it[1]`: the second byte is read without moving the iterator
      var c2 := s[i + 1];
      assert t[1] == c2;
      if IsCont(c2) {
        out := [Value2(c1, c2)];
      }
    } else if c1 < 0xF0 {
      if |s| - i < 3 {
        halt := true;
        return;
      }
      var c2, c3 := s[i + 1], s[i + 2];
      assert t[1] == c2 && t[2] == c3;
      n := 3;
      if Second3Ok(c1, c2) && IsCont(c3) {
        out := [Value3(c1, c2, c3)];
      }
    } else if c1 < 0xF5 {
      if |s| - i < 4 {
        halt := true;
        return;
      }
      var c2, c3, c4 := s[i + 1], s[i + 2], s[i + 3];
      assert t[1] == c2 && t[2] == c3 && t[3] == c4;
      n := 4;
      if Second4Ok(c1, c2) && IsCont(c3) && IsCont(c4) {
        out := [Value4(c1, c2, c3, c4)];
      }
    }
  }

  /** DecodeUTF32: UTF-8 to code points. */
  method DecodeUTF32(s: seq<Byte>) returns (r: seq<Unit32>)
    ensures r == Decode32(s)
  {
    r := [];
    var i := 0;
    while i < |s|
      invariant 0 <= i <= |s|
      invariant r + Decode32(s[i..]) == Decode32(s)
    {
      var out, n, halt := DecodeTurn32(s, i);
      if halt {
        Decode32Halt(s, i);
        AppendNil(r);
        break;
      }
      Decode32At(s, i, out, n);
      Advance(r, out, Decode32(s[i + n..]), Decode32(s[i..]), Decode32(s));
      r := r + out;
      i := i + n;
    }
    if i == |s| {
      AtEnd(s, i, r);
    }
  }

  /** The body of the loop of EncodeUTF(u16string) with the iterator at i. */
  method EncodeTurn16(u: seq<Unit16>, i: nat) returns (out: seq<Byte>, n: nat, halt: bool)
    requires i < |u|
    ensures halt ==> EncTurn16(u[i..]) == Halt
    ensures !halt ==> EncTurn16(u[i..]) == Emit(out, n)
  {
    ghost var t := u[i..];
    assert t[0] == u[i];
    out, n, halt := [], 1, false;
    var wc1 := u[i];
    if wc1 < 0x80 {
      out := [wc1];
    } else if wc1 < 0x800 {
      out := [0xC0 + wc1 / 64, 0x80 + wc1 % 64];
    } else if wc1 < 0xD800 {
      out := [0xE0 + wc1 / 4096, 0x80 + (wc1 / 64) % 64, 0x80 + wc1 % 64];
    } else if wc1 < 0xDC00 {
      if |u| - i < 2 {
        halt := true;
        return;
      }
      var wc2 := u[i + 1];
      assert t[1] == wc2;
      n := 2;
      if IsLow(wc2) && PairValue(wc1, wc2) <= 0x10FFFF {
        var z := (wc1 % 1024) / 64 + 1;
        out := [0xF0 + z / 4,
                0x80 + (z % 4) * 16 + (wc1 % 64) / 4,
                0x80 + (wc1 % 4) * 16 + (wc2 % 1024) / 64,
                0x80 + wc2 % 64];
      }
    } else if wc1 < 0xE000 {
    } else {
      out := [0xE0 + wc1 / 4096, 0x80 + (wc1 / 64) % 64, 0x80 + wc1 % 64];
    }
  }

  /** EncodeUTF(u16string): UTF-16 code units to UTF-8. */
  method EncodeUTF16(u: seq<Unit16>) returns (r: seq<Byte>)
    ensures r == Encode16(u)
  {
    r := [];
    var i := 0;
    while i < |u|
      invariant 0 <= i <= |u|
      invariant r + Encode16(u[i..]) == Encode16(u)
    {
      var out, n, halt := EncodeTurn16(u, i);
      if halt {
        Encode16Halt(u, i);
        AppendNil(r);
        break;
      }
      Encode16At(u, i, out, n);
      Advance(r, out, Encode16(u[i + n..]), Encode16(u[i..]), Encode16(u));
      r := r + out;
      i := i + n;
    }
    if i == |u| {
      AtEnd(u, i, r);
    }
  }

  /** EncodeUTF(u32string): code points to UTF-8, stopping at the first
      surrogate or value above 0x10FFFF. */
  method EncodeUTF32(u: seq<Unit32>) returns (r: seq<Byte>)
    ensures r == Encode32(u)
  {
    r := [];
    var i := 0;
    while i < |u|
      invariant 0 <= i <= |u|
      invariant r + Encode32(u[i..]) == Encode32(u)
    {
      var wc := u[i];
      assert u[i..][0] == wc;
      if 0xD800 <= wc < 0xE000 || wc > 0x10FFFF {
        AppendNil(r);
        break;
      }
      var out: seq<Byte>;
      if wc < 0x80 {
        out := [wc];
      } else if wc < 0x800 {
        out := [0xC0 + wc / 64, 0x80 + wc % 64];
      } else if wc < 0x1_0000 {
        out := [0xE0 + wc / 4096, 0x80 + (wc / 64) % 64, 0x80 + wc % 64];
      } else {
        out := [0xF0 + wc / 262144, 0x80 + (wc / 4096) % 64, 0x80 + (wc / 64) % 64, 0x80 + wc % 64];
      }
      assert u[i..][1..] == u[i + 1..];
      Advance(r, out, Encode32(u[i + 1..]), Encode32(u[i..]), Encode32(u));
      r := r + out;
      i := i + 1;
    }
    if i == |u| {
      AtEnd(u, i, r);
    }
  }
}

/**
 * Base32 as the action codec uses it: the alphabet of section 6 of RFC 4648, five bits per
 * symbol, no padding. The integers are Java `int`s. On them `x & 31` is Dafny's Euclidean
 * `x % 32` and `x >> 5` is `x / 32`, negative values included. The left shift in decode
 * wraps around at 32 bits.
 */
module Base32 {
  import opened Wrappers

  /** A Java `int`. */
  type Int32 = x: int | -0x8000_0000 <= x < 0x8000_0000

  /** The 32 symbols, in the order of their values. */
  const Alphabet: string := "ABCDEFGHIJKLMNOPQRSTUVWXYZ234567"

  /** The symbol for a 5-bit value: the letters first, then the digits 2 to 7. */
  function Symbol(v: int): (c: char)
    requires 0 <= v < 32
  {
    if v < 26 then ('A' as int + v) as char else ('2' as int + v - 26) as char
  }

  /** Symbol spells out the alphabet constant. */
  lemma SymbolIsAlphabet(v: int)
    requires 0 <= v < 32
    ensures |Alphabet| == 32 && Symbol(v) == Alphabet[v]
  {
    assert Alphabet == seq(32, i requires 0 <= i < 32 => Symbol(i));
  }

  /** ALPHABET.indexOf(c): the value of a symbol, or -1 for a character outside the alphabet. */
  function IndexOf(c: char): (r: int)
    ensures -1 <= r < 32
    ensures r >= 0 ==> Symbol(r) == c
  {
    if 'A' <= c <= 'Z' then c as int - 'A' as int
    else if '2' <= c <= '7' then c as int - '2' as int + 26
    else -1
  }

  /** IndexOf finds exactly the characters of the alphabet, at their place in it. */
  lemma IndexOfIsAlphabetIndex(c: char)
    ensures IndexOf(c) != -1 <==> c in Alphabet
    ensures IndexOf(c) >= 0 ==> Alphabet[IndexOf(c)] == c
  {
    if IndexOf(c) >= 0 {
      SymbolIsAlphabet(IndexOf(c));
    }
    if c in Alphabet {
      var i :| 0 <= i < |Alphabet| && Alphabet[i] == c;
      SymbolIsAlphabet(i);
    }
  }

  /** Each value has exactly one symbol: the value of a symbol is the value it was made from. */
  lemma IndexOfSymbol(v: int)
    requires 0 <= v < 32
    ensures IndexOf(Symbol(v)) == v
  {
  }

  /** isValid: every character is in the alphabet (so the empty string is valid). */
  predicate IsValid(s: string) {
    forall i :: 0 <= i < |s| ==> IndexOf(s[i]) != -1
  }

  /** The value a Java `int` holds once x is cut down to its low 32 bits. */
  function Wrap(x: int): (r: Int32)
    ensures (r - x) % 0x1_0000_0000 == 0
    ensures -0x8000_0000 <= x < 0x8000_0000 ==> r == x
  {
    if -0x8000_0000 <= x < 0x8000_0000 then x else (x + 0x8000_0000) % 0x1_0000_0000 - 0x8000_0000
  }

  /** encodeBits5: the one symbol of the five low bits. */
  function EncodeBits5(x: Int32): (r: string)
    ensures |r| == 1 && IsValid(r) && IndexOf(r[0]) == x % 32
  {
    [Symbol(x % 32)]
  }

  /** encodeBits10: two symbols, bits 9 to 5 and then bits 4 to 0. */
  function EncodeBits10(x: Int32): (r: string)
    ensures |r| == 2 && IsValid(r)
    ensures IndexOf(r[0]) == (x / 32) % 32 && IndexOf(r[1]) == x % 32
  {
    EncodeBits5(x / 32) + EncodeBits5(x)
  }

  /**
   * The value decode computes: it starts at zero and, symbol by symbol, shifts the value five
   * bits left and puts the symbol's value in the five bits so freed. The shifted value's low
   * five bits are zero, so the bitwise or is an addition, and the shift wraps at 32 bits.
   */
  function DecodedValue(s: string): Int32
    requires IsValid(s)
  {
    if s == [] then 0 else Wrap(DecodedValue(s[..|s| - 1]) * 32 + IndexOf(s[|s| - 1]))
  }

  /** decode: the value of a valid string; any other character is an IllegalArgumentException. */
  method Decode(s: string) returns (r: Result<Int32, Thrown>)
    ensures IsValid(s) ==> r == Success(DecodedValue(s))
    ensures !IsValid(s) ==> r == Failure(IllegalArgument)
  {
    if !IsValid(s) {
      return Failure(IllegalArgument);
    }
    var decoded: Int32 := 0;
    for i := 0 to |s|
      invariant IsValid(s[..i]) && decoded == DecodedValue(s[..i])
    {
      assert s[..i + 1][..i] == s[..i];
      decoded := Wrap(decoded * 32 + IndexOf(s[i]));
    }
    assert s[..|s|] == s;
    return Success(decoded);
  }

  /** 32^n. */
  function Pow32(n: nat): (r: nat)
    ensures r >= 1
  {
    if n == 0 then 1 else 32 * Pow32(n - 1)
  }

  /** The base-32 number the symbols spell, most significant first, without any wrap-around. */
  function Horner(s: string): (r: nat)
    requires IsValid(s)
    ensures r < Pow32(|s|)
  {
    if s == [] then 0 else Horner(s[..|s| - 1]) * 32 + IndexOf(s[|s| - 1])
  }

  /** Up to six symbols (30 bits) never wrap: decode gives the plain base-32 number. */
  lemma {:induction false} ShortDecodeIsHorner(s: string)
    requires IsValid(s) && |s| <= 6
    ensures DecodedValue(s) == Horner(s)
  {
    if s != [] {
      var init := s[..|s| - 1];
      assert IsValid(init);
      ShortDecodeIsHorner(init);
      Pow32Grows(|init|, 5);
      assert Pow32(5) == 0x200_0000;
    }
  }

  lemma {:induction false} Pow32Grows(m: nat, n: nat)
    requires m <= n
    ensures Pow32(m) <= Pow32(n)
  {
    if m < n {
      Pow32Grows(m, n - 1);
    }
  }

  /** One symbol decodes to its value. */
  lemma DecodeOne(s: string)
    requires IsValid(s) && |s| == 1
    ensures DecodedValue(s) == IndexOf(s[0])
  {
    assert s[..0] == [];
  }

  /** Two symbols decode to the first value times 32 plus the second. */
  lemma DecodeTwo(s: string)
    requires IsValid(s) && |s| == 2
    ensures DecodedValue(s) == IndexOf(s[0]) * 32 + IndexOf(s[1])
  {
    var first := s[..1];
    assert first[0] == s[0];
    DecodeOne(first);
  }

  /** Decoding the symbol of encodeBits5 gives back the five low bits. */
  lemma DecodeEncodeBits5(x: Int32)
    ensures DecodedValue(EncodeBits5(x)) == x % 32
  {
    DecodeOne(EncodeBits5(x));
  }

  /** Decoding the symbols of encodeBits10 gives back the ten low bits. */
  lemma DecodeEncodeBits10(x: Int32)
    ensures DecodedValue(EncodeBits10(x)) == x % 1024
  {
    DecodeTwo(EncodeBits10(x));
    TenBits(x);
  }

  /** The ten low bits of x are its bits 9 to 5 followed by its bits 4 to 0. */
  lemma TenBits(x: int)
    ensures x % 1024 == (x / 32) % 32 * 32 + x % 32
  {
    var q, r := x / 32, x % 32;
    var h, l := q / 32, q % 32;
    assert x == 1024 * h + (32 * l + r);
    assert 0 <= 32 * l + r < 1024;
  }

  /** A value of five bits survives encodeBits5 and decode. */
  lemma DecodeEncodeSmall5(x: Int32)
    requires 0 <= x < 32
    ensures DecodedValue(EncodeBits5(x)) == x
  {
    DecodeEncodeBits5(x);
  }

  /** A value of ten bits survives encodeBits10 and decode. */
  lemma DecodeEncodeSmall10(x: Int32)
    requires 0 <= x < 1024
    ensures DecodedValue(EncodeBits10(x)) == x
  {
    DecodeEncodeBits10(x);
  }

  /** A valid one-symbol string is encodeBits5 of its value. */
  lemma EncodeBits5OfDecode(s: string)
    requires IsValid(s) && |s| == 1
    ensures EncodeBits5(DecodedValue(s)) == s
  {
    DecodeOne(s);
  }

  /** A valid two-symbol string is encodeBits10 of its value. */
  lemma EncodeBits10OfDecode(s: string)
    requires IsValid(s) && |s| == 2
    ensures EncodeBits10(DecodedValue(s)) == s
  {
    DecodeTwo(s);
    var v := DecodedValue(s);
    assert v / 32 == IndexOf(s[0]) && v % 32 == IndexOf(s[1]);
  }
}

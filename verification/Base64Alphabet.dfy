/** The codec told by the alphabet of section 4 of RFC 4648 and by the 24-bit value of a group. */
module Base64Alphabet {
  import opened Base64

  lemma Uppers(v: sextet)
    requires v < 26
    ensures CharOf(v) == "ABCDEFGHIJKLMNOPQRSTUVWXYZ"[v]
  {
  }

  lemma Lowers(v: sextet)
    requires 26 <= v < 52
    ensures CharOf(v) == "abcdefghijklmnopqrstuvwxyz"[v - 26]
  {
  }

  lemma Digits(v: sextet)
    requires 52 <= v < 62
    ensures CharOf(v) == "0123456789"[v - 52]
  {
  }

  lemma AlphabetParts()
    ensures "ABCDEFGHIJKLMNOPQRSTUVWXYZabcdefghijklmnopqrstuvwxyz0123456789+/"
         == "ABCDEFGHIJKLMNOPQRSTUVWXYZ" + "abcdefghijklmnopqrstuvwxyz" + "0123456789" + "+/"
  {
  }

  /** Sextet v is spelled by character v of the alphabet. */
  lemma AlphabetAt(v: sextet)
    ensures CharOf(v) == "ABCDEFGHIJKLMNOPQRSTUVWXYZabcdefghijklmnopqrstuvwxyz0123456789+/"[v]
  {
    AlphabetParts();
    if v < 26 {
      Uppers(v);
    } else if v < 52 {
      Lowers(v);
    } else if v < 62 {
      Digits(v);
    }
  }

  /** The inverse table gives the place of a character in the alphabet, or -1. */
  lemma PlaceInAlphabet(c: char)
    ensures c in "ABCDEFGHIJKLMNOPQRSTUVWXYZabcdefghijklmnopqrstuvwxyz0123456789+/" <==> SextetOf(c) >= 0
    ensures SextetOf(c) >= 0 ==> "ABCDEFGHIJKLMNOPQRSTUVWXYZabcdefghijklmnopqrstuvwxyz0123456789+/"[SextetOf(c)] == c
    ensures SextetOf(c) < 0 ==> SextetOf(c) == -1
  {
    var alphabet := "ABCDEFGHIJKLMNOPQRSTUVWXYZabcdefghijklmnopqrstuvwxyz0123456789+/";
    assert |alphabet| == 64;
    TablesAreInverse(0, c);
    if SextetOf(c) >= 0 {
      AlphabetAt(SextetOf(c));
    }
    if c in alphabet {
      var v :| 0 <= v < 64 && alphabet[v] == c;
      AlphabetAt(v);
      TablesAreInverse(v, c);
    }
  }

  // ---------------------------------------------------------------- groups of three bytes, quanta of four characters

  lemma Over262144(x: int, q: int, r: int)
    requires x == 262144 * q + r && 0 <= r < 262144
    ensures x / 262144 == q
  {
  }

  lemma Over65536(x: int, q: int, r: int)
    requires x == 65536 * q + r && 0 <= r < 65536
    ensures x / 65536 == q
  {
  }

  lemma Over4096(x: int, q: int, r: int)
    requires x == 4096 * q + r && 0 <= r < 4096
    ensures x / 4096 == q
  {
  }

  lemma Over256(x: int, q: int, r: int)
    requires x == 256 * q + r && 0 <= r < 256
    ensures x / 256 == q && x % 256 == r
  {
  }

  lemma Over64(x: int, q: int, r: int)
    requires x == 64 * q + r && 0 <= r < 64
    ensures x / 64 == q && x % 64 == r
  {
  }

  lemma FirstDigit(a: byte, b: byte, c: byte, v: int)
    requires v == a * 65536 + b * 256 + c
    ensures v / 262144 == a / 4
  {
    Over262144(v, a / 4, 65536 * (a % 4) + 256 * b + c);
  }

  lemma SecondDigit(a: byte, b: byte, c: byte, v: int)
    requires v == a * 65536 + b * 256 + c
    ensures v / 4096 % 64 == a % 4 * 16 + b / 16
  {
    Over4096(v, 16 * a + b / 16, 256 * (b % 16) + c);
    Over64(16 * a + b / 16, a / 4, a % 4 * 16 + b / 16);
  }

  lemma ThirdDigit(a: byte, b: byte, c: byte, v: int)
    requires v == a * 65536 + b * 256 + c
    ensures v / 64 % 64 == c / 64 + b % 16 * 4
  {
    Over64(v, 1024 * a + 4 * b + c / 64, c % 64);
    Over64(1024 * a + 4 * b + c / 64, 16 * a + b / 16, c / 64 + b % 16 * 4);
  }

  lemma FourthDigit(a: byte, b: byte, c: byte, v: int)
    requires v == a * 65536 + b * 256 + c
    ensures v % 64 == c % 64
  {
    Over64(v, 1024 * a + 4 * b + c / 64, c % 64);
  }

  /** The base-64 digits of a 24-bit value, from the top. */
  lemma DigitsOfGroup(a: byte, b: byte, c: byte, v: int)
    requires v == a * 65536 + b * 256 + c
    ensures 0 <= v < 16777216
    ensures v / 262144 == a / 4
    ensures v / 4096 % 64 == a % 4 * 16 + b / 16
    ensures v / 64 % 64 == c / 64 + b % 16 * 4
    ensures v % 64 == c % 64
  {
    FirstDigit(a, b, c, v);
    SecondDigit(a, b, c, v);
    ThirdDigit(a, b, c, v);
    FourthDigit(a, b, c, v);
  }

  lemma SpellGroup(a: byte, b: byte, c: byte, v: int)
    requires v == a * 65536 + b * 256 + c
    ensures 0 <= v < 16777216
    ensures var alphabet := "ABCDEFGHIJKLMNOPQRSTUVWXYZabcdefghijklmnopqrstuvwxyz0123456789+/";
      Four(a, b, c) == [alphabet[v / 262144], alphabet[v / 4096 % 64], alphabet[v / 64 % 64], alphabet[v % 64]]
  {
    DigitsOfGroup(a, b, c, v);
    AlphabetAt(a / 4);
    AlphabetAt(a % 4 * 16 + b / 16);
    AlphabetAt(c / 64 + b % 16 * 4);
    AlphabetAt(c % 64);
  }

  /** Three bytes are spelled by the four base-64 digits of their 24-bit value, from the top. */
  lemma ThreeBytes(a: byte, b: byte, c: byte)
    ensures var alphabet := "ABCDEFGHIJKLMNOPQRSTUVWXYZabcdefghijklmnopqrstuvwxyz0123456789+/"; var v := a * 65536 + b * 256 + c;
      0 <= v < 16777216 && Encoded([a, b, c]) == [alphabet[v / 262144], alphabet[v / 4096 % 64], alphabet[v / 64 % 64], alphabet[v % 64]]
  {
    SpellGroup(a, b, c, a * 65536 + b * 256 + c);
    EncodedFour([a, b, c], Four(a, b, c), []);
  }

  lemma TwoAsThree(a: byte, b: byte)
    ensures Encoded([a, b]) == Four(a, b, 0)[..3] + "="
  {
    EncodedTail([a, b], 0);
    assert [a, b][0..] == [a, b];
  }

  lemma OneAsThree(a: byte)
    ensures Encoded([a]) == Four(a, 0, 0)[..2] + "=="
  {
    EncodedTail([a], 0);
    assert [a][0..] == [a];
  }

  lemma FirstThree(x0: char, x1: char, x2: char, x3: char)
    ensures [x0, x1, x2, x3][..3] + "=" == [x0, x1, x2, '='] && [x0, x1, x2, x3][..2] + "==" == [x0, x1, '=', '=']
  {
  }

  /** Two bytes by the first three digits of their value, and padding. */
  lemma TwoBytes(a: byte, b: byte)
    ensures var alphabet := "ABCDEFGHIJKLMNOPQRSTUVWXYZabcdefghijklmnopqrstuvwxyz0123456789+/"; var v := a * 65536 + b * 256;
      0 <= v < 16777216 && Encoded([a, b]) == [alphabet[v / 262144], alphabet[v / 4096 % 64], alphabet[v / 64 % 64], '=']
  {
    SpellGroup(a, b, 0, a * 65536 + b * 256);
    TwoAsThree(a, b);
    var q := Four(a, b, 0);
    FirstThree(q[0], q[1], q[2], q[3]);
  }

  /** One byte by the first two. */
  lemma OneByte(a: byte)
    ensures var alphabet := "ABCDEFGHIJKLMNOPQRSTUVWXYZabcdefghijklmnopqrstuvwxyz0123456789+/"; var v := a * 65536;
      0 <= v < 16777216 && Encoded([a]) == [alphabet[v / 262144], alphabet[v / 4096 % 64], '=', '=']
  {
    SpellGroup(a, 0, 0, a * 65536);
    OneAsThree(a);
    var q := Four(a, 0, 0);
    FirstThree(q[0], q[1], q[2], q[3]);
  }

  /** Longer inputs are encoded three bytes at a time. */
  lemma GroupByGroup(src: seq<byte>, group: seq<byte>, rest: seq<byte>)
    requires |group| == 3 && src == group + rest
    ensures Encoded(src) == Encoded(group) + Encoded(rest)
  {
    var q := Four(group[0], group[1], group[2]);
    assert group[3..] == [];
    EncodedFour(group, q, []);
    EncodedFour(src, q, rest);
  }

  lemma ManIsTWFu()
    ensures Encoded([77, 97, 110]) == "TWFu"
  {
    EncodedFour([77, 97, 110], "TWFu", []);
  }

  /** The base-256 digits of four sextets. */
  lemma BytesOfValue(q0: sextet, q1: sextet, q2: sextet, q3: sextet, v: int)
    requires v == q0 * 262144 + q1 * 4096 + q2 * 64 + q3
    ensures 0 <= v < 16777216
    ensures First(q0, q1) == v / 65536 && Second(q1, q2) == v / 256 % 256 && Third(q2, q3) == v % 256
  {
    FirstByte(q0, q1, q2, q3, v);
    SecondByte(q0, q1, q2, q3, v);
    ThirdByte(q0, q1, q2, q3, v);
  }

  lemma FirstByte(q0: sextet, q1: sextet, q2: sextet, q3: sextet, v: int)
    requires v == q0 * 262144 + q1 * 4096 + q2 * 64 + q3
    ensures First(q0, q1) == v / 65536
  {
    Over65536(v, q0 * 4 + q1 / 16, 4096 * (q1 % 16) + 64 * q2 + q3);
  }

  lemma SecondByte(q0: sextet, q1: sextet, q2: sextet, q3: sextet, v: int)
    requires v == q0 * 262144 + q1 * 4096 + q2 * 64 + q3
    ensures Second(q1, q2) == v / 256 % 256
  {
    Over256(v, q0 * 1024 + q1 * 16 + q2 / 4, 64 * (q2 % 4) + q3);
    Over256(q0 * 1024 + q1 * 16 + q2 / 4, q0 * 4 + q1 / 16, q1 % 16 * 16 + q2 / 4);
  }

  lemma ThirdByte(q0: sextet, q1: sextet, q2: sextet, q3: sextet, v: int)
    requires v == q0 * 262144 + q1 * 4096 + q2 * 64 + q3
    ensures Third(q2, q3) == v % 256
  {
    Over256(v, q0 * 1024 + q1 * 16 + q2 / 4, 64 * (q2 % 4) + q3);
  }

  /** The 24-bit value that two to four sextets begin. */
  function ValueOf(q: seq<int>): int
    requires 2 <= |q| <= 4
  {
    q[0] * 262144 + q[1] * 4096 + (if |q| > 2 then q[2] * 64 else 0) + (if |q| > 3 then q[3] else 0)
  }

  /** A quantum of up to four sextets stands for the leading bytes of its 24-bit value, one fewer than it has sextets;
      what is left of the value is dropped. */
  lemma QuantumBytes(q: seq<sextet>)
    requires 2 <= |q| <= 4
    ensures var v := ValueOf(q); 0 <= v < 16777216 && Bytes(q) == [v / 65536, v / 256 % 256, v % 256][..|q| - 1]
  {
    var q2: sextet, q3: sextet := if |q| > 2 then q[2] else 0, if |q| > 3 then q[3] else 0;
    BytesOfValue(q[0], q[1], q2, q3, ValueOf(q));
    LeadingBytes(q, q2, q3);
  }

  lemma LeadingBytes(q: seq<sextet>, q2: sextet, q3: sextet)
    requires 2 <= |q| <= 4 && (|q| > 2 ==> q2 == q[2]) && (|q| > 3 ==> q3 == q[3])
    ensures Bytes(q) == [First(q[0], q[1]), Second(q[1], q2), Third(q2, q3)][..|q| - 1]
  {
  }

  lemma NoBytes(q: seq<sextet>)
    requires |q| <= 1
    ensures Bytes(q) == []
  {
  }

  /** Longer inputs are decoded four sextets at a time. */
  lemma QuantumByQuantum(vs: seq<sextet>)
    requires |vs| >= 4
    ensures Bytes(vs) == Bytes(vs[..4]) + Bytes(vs[4..])
  {
    BytesStep(vs, vs[..4], vs[4..]);
    BytesStep(vs[..4], vs[..4], []);
  }

  /** What is decoded are the places in the alphabet of the characters up to the first one outside it. */
  lemma DecodedPlaces(s: string, k: nat)
    requires k < |PrefixSextets(s)|
    ensures k < |s| && "ABCDEFGHIJKLMNOPQRSTUVWXYZabcdefghijklmnopqrstuvwxyz0123456789+/"[PrefixSextets(s)[k]] == s[k]
    ensures Decoded(s) == Bytes(PrefixSextets(s))
    ensures |PrefixSextets(s)| < |s| ==> s[|PrefixSextets(s)|] !in "ABCDEFGHIJKLMNOPQRSTUVWXYZabcdefghijklmnopqrstuvwxyz0123456789+/"
  {
    PlaceInAlphabet(s[k]);
    if |PrefixSextets(s)| < |s| {
      PlaceInAlphabet(s[|PrefixSextets(s)|]);
    }
  }
}

/** What the codec of module Base64 promises: decoding undoes encoding, encoding undoes decoding exactly on canonical
    texts, and the hexadecimal form of an encoded value is that of its bytes. */
module Base64Laws {
  import opened Wrappers
  import opened Base64

  /** The sextets an encoding spells before its padding. */
  function Spelled(src: seq<byte>): seq<sextet> {
    if |src| == 0 then []
    else if |src| == 1 then Quantum(src[0], 0, 0)[..2]
    else if |src| == 2 then Quantum(src[0], src[1], 0)[..3]
    else Quantum(src[0], src[1], src[2]) + Spelled(src[3..])
  }

  function Padding(n: nat): string {
    if n % 3 == 1 then [PAD, PAD] else if n % 3 == 2 then [PAD] else ""
  }

  lemma CharsConcat(a: seq<sextet>, b: seq<sextet>)
    ensures Chars(a + b) == Chars(a) + Chars(b)
  {
  }

  lemma PaddingOfRest(n: nat)
    requires n >= 3
    ensures Padding(n) == Padding(n - 3)
  {
  }

  lemma {:induction false} EncodedIsSpelled(src: seq<byte>)
    ensures Encoded(src) == Chars(Spelled(src)) + Padding(|src|)
  {
    if |src| >= 3 {
      EncodedIsSpelled(src[3..]);
      SpelledStep(src, src[3..]);
      CharsConcat(Quantum(src[0], src[1], src[2]), Spelled(src[3..]));
      PaddingOfRest(|src|);
    }
  }

  lemma {:induction false} PrefixOfChars(vs: seq<sextet>, tail: string)
    requires tail == "" || SextetOf(tail[0]) == -1
    ensures PrefixLength(Chars(vs) + tail) == |vs|
  {
    var s := Chars(vs) + tail;
    if vs != [] {
      TablesAreInverse(vs[0], s[0]);
      assert s[1..] == Chars(vs[1..]) + tail;
      PrefixOfChars(vs[1..], tail);
    }
  }

  lemma SextetsOfChars(vs: seq<sextet>, tail: string)
    requires tail == "" || SextetOf(tail[0]) == -1
    ensures PrefixSextets(Chars(vs) + tail) == vs
  {
    PrefixOfChars(vs, tail);
    var s := Chars(vs) + tail;
    forall k | 0 <= k < |vs| ensures SextetOf(s[k]) == vs[k] {
      TablesAreInverse(vs[k], s[k]);
    }
  }

  lemma FirstOf(a: byte, y: int, r: int)
    requires 0 <= r < 16 && y == a % 4 * 16 + r
    ensures First(a / 4, y) == a
  {
    assert y / 16 == a % 4;
  }

  lemma SecondOf(b: byte, l: int, z: int, r: int)
    requires 0 <= l < 4 && 0 <= r < 4 && z == r + b % 16 * 4
    ensures Second(l * 16 + b / 16, z) == b
  {
    assert (l * 16 + b / 16) % 16 == b / 16;
    assert z / 4 == b % 16;
  }

  lemma ThirdOf(c: byte, m: int)
    requires 0 <= m < 16
    ensures Third(c / 64 + m * 4, c % 64) == c
  {
    assert (c / 64 + m * 4) % 4 == c / 64;
  }

  lemma TripleIs(q: seq<sextet>, a: byte, b: byte, c: byte)
    requires |q| == 4 && First(q[0], q[1]) == a && Second(q[1], q[2]) == b && Third(q[2], q[3]) == c
    ensures Triple(q) == [a, b, c]
  {
  }

  lemma TripleOfFour(a: byte, b: byte, c: byte)
    ensures Triple(Quantum(a, b, c)) == [a, b, c]
  {
    var q := Quantum(a, b, c);
    assert First(q[0], q[1]) == a by { FirstOf(a, a % 4 * 16 + b / 16, b / 16); }
    assert Second(q[1], q[2]) == b by { SecondOf(b, a % 4, c / 64 + b % 16 * 4, c / 64); }
    assert Third(q[2], q[3]) == c by { ThirdOf(c, b % 16); }
    TripleIs(q, a, b, c);
  }

  lemma TripleOfThree(a: byte, b: byte)
    ensures Triple(Quantum(a, b, 0)[..3]) == [a, b]
  {
    FirstOf(a, a % 4 * 16 + b / 16, b / 16);
    SecondOf(b, a % 4, b % 16 * 4, 0);
  }

  lemma TripleOfTwo(a: byte)
    ensures Triple(Quantum(a, 0, 0)[..2]) == [a]
  {
    FirstOf(a, a % 4 * 16, 0);
  }

  lemma {:induction false} BytesOfSpelled(src: seq<byte>, vs: seq<sextet>)
    requires vs == Spelled(src)
    ensures Bytes(vs) == src
    decreases |src|
  {
    if |src| == 1 {
      TripleOfTwo(src[0]);
    } else if |src| == 2 {
      TripleOfThree(src[0], src[1]);
    } else if |src| > 2 {
      TripleOfFour(src[0], src[1], src[2]);
      BytesOfSpelled(src[3..], Spelled(src[3..]));
      BytesConcat(Quantum(src[0], src[1], src[2]), 1, Spelled(src[3..]));
      assert src == [src[0], src[1], src[2]] + src[3..];
    }
  }

  lemma SextetsOfEncoded(src: seq<byte>)
    ensures PrefixSextets(Encoded(src)) == Spelled(src)
  {
    EncodedIsSpelled(src);
    TablesAreInverse(0, PAD);
    SextetsOfChars(Spelled(src), Padding(|src|));
  }

  /** Decoding an encoding gives the bytes back, within the buffer base64_decode allocates. */
  lemma DecodeOfEncode(src: seq<byte>)
    ensures Decoded(Encoded(src)) == src
    ensures |Decoded(Encoded(src))| <= DecodedSize(|Encoded(src)|)
  {
    SextetsOfEncoded(src);
    BytesOfSpelled(src, Spelled(src));
    DecodedIsBytes(Encoded(src), Spelled(src));
    EncodingFits(|src|);
  }

  lemma EncodingFits(n: nat)
    ensures n <= DecodedSize(EncodedSize(n))
  {
  }

  lemma DecodedIsBytes(s: string, vs: seq<sextet>)
    requires PrefixSextets(s) == vs
    ensures Decoded(s) == Bytes(vs)
  {
  }

  method RoundTrip(data: seq<byte>) returns (back: Option<seq<byte>>)
    ensures back == Some(data)
  {
    var s := Base64Encode(data);
    DecodeOfEncode(data);
    back := Base64Decode(s);
  }

  // ---------------------------------------------------------------- canonical texts

  /** Canonical in the sense of section 3.5 of RFC 4648: whole quanta, padding only where it is due, and zero pad
      bits in the last sextet. */
  predicate Canonical(s: string) {
    var v := PrefixLength(s);
    && |s| % 4 == 0 && |s| - v < 3
    && (forall k :: v <= k < |s| ==> s[k] == PAD)
    && (|s| - v == 1 ==> SextetOf(s[v - 1]) % 4 == 0)
    && (|s| - v == 2 ==> SextetOf(s[v - 1]) % 16 == 0)
  }

  lemma {:induction false} SpelledEnd(src: seq<byte>)
    ensures |Spelled(src)| == |src| / 3 * 4 + (if |src| % 3 == 0 then 0 else |src| % 3 + 1)
    ensures |src| % 3 == 1 ==> Spelled(src)[|Spelled(src)| - 1] % 16 == 0
    ensures |src| % 3 == 2 ==> Spelled(src)[|Spelled(src)| - 1] % 4 == 0
  {
    if |src| >= 3 {
      SpelledEnd(src[3..]);
    }
  }

  lemma FormLength(v: nat, n: nat)
    requires v == n / 3 * 4 + (if n % 3 == 0 then 0 else n % 3 + 1)
    ensures (v + |Padding(n)|) % 4 == 0
    ensures |Padding(n)| == 0 <==> n % 3 == 0
    ensures |Padding(n)| == 1 <==> n % 3 == 2
    ensures |Padding(n)| == 2 <==> n % 3 == 1
  {
  }

  lemma LastChar(vs: seq<sextet>, tail: string)
    requires vs != []
    ensures SextetOf((Chars(vs) + tail)[|vs| - 1]) == vs[|vs| - 1]
  {
    TablesAreInverse(vs[|vs| - 1], 'A');
  }

  lemma CanonicalFrom(vs: seq<sextet>, pad: string)
    requires (|vs| + |pad|) % 4 == 0 && |pad| < 3 && PrefixLength(Chars(vs) + pad) == |vs|
    requires forall k :: 0 <= k < |pad| ==> pad[k] == PAD
    requires |pad| == 1 ==> vs != [] && vs[|vs| - 1] % 4 == 0
    requires |pad| == 2 ==> vs != [] && vs[|vs| - 1] % 16 == 0
    ensures Canonical(Chars(vs) + pad)
  {
    if pad != "" {
      LastChar(vs, pad);
    }
  }

  lemma CanonicalForm(vs: seq<sextet>, n: nat)
    requires |vs| == n / 3 * 4 + (if n % 3 == 0 then 0 else n % 3 + 1)
    requires n % 3 == 1 ==> vs[|vs| - 1] % 16 == 0
    requires n % 3 == 2 ==> vs[|vs| - 1] % 4 == 0
    ensures Canonical(Chars(vs) + Padding(n))
  {
    TablesAreInverse(0, PAD);
    PrefixOfChars(vs, Padding(n));
    FormLength(|vs|, n);
    CanonicalFrom(vs, Padding(n));
  }

  lemma EncodedIsCanonical(src: seq<byte>)
    ensures Canonical(Encoded(src))
  {
    EncodedIsSpelled(src);
    SpelledEnd(src);
    CanonicalForm(Spelled(src), |src|);
  }

  /** The sextets leave no pad bits behind. */
  predicate Clean(vs: seq<sextet>) {
    && |vs| % 4 != 1
    && (|vs| % 4 == 2 ==> vs[|vs| - 1] % 16 == 0)
    && (|vs| % 4 == 3 ==> vs[|vs| - 1] % 4 == 0)
  }

  lemma FirstBack(q0: sextet, q1: sextet)
    ensures First(q0, q1) / 4 == q0 && First(q0, q1) % 4 == q1 / 16
  {
  }

  lemma SecondIs(q1: sextet, q2: sextet)
    ensures Second(q1, q2) == 16 * (q1 % 16) + q2 / 4
  {
  }

  lemma SecondBack(q1: sextet, q2: sextet)
    ensures Second(q1, q2) / 16 == q1 % 16 && Second(q1, q2) % 16 == q2 / 4
  {
    SecondIs(q1, q2);
  }

  lemma ThirdBack(q2: sextet, q3: sextet)
    ensures Third(q2, q3) / 64 == q2 % 4 && Third(q2, q3) % 64 == q3
  {
  }

  lemma SextetsBack(q0: sextet, q1: sextet, q2: sextet, q3: sextet)
    ensures var a, b, c := First(q0, q1), Second(q1, q2), Third(q2, q3);
      a / 4 == q0 && a % 4 == q1 / 16 && b / 16 == q1 % 16 && b % 16 == q2 / 4 && c / 64 == q2 % 4 && c % 64 == q3
  {
    FirstBack(q0, q1);
    SecondBack(q1, q2);
    ThirdBack(q2, q3);
  }

  lemma QuantumBack(a: byte, b: byte, c: byte, q0: sextet, q1: sextet, q2: sextet, q3: sextet)
    requires a / 4 == q0 && a % 4 == q1 / 16 && b / 16 == q1 % 16 && b % 16 == q2 / 4 && c / 64 == q2 % 4 && c % 64 == q3
    ensures Quantum(a, b, c) == [q0, q1, q2, q3]
  {
  }

  lemma QuantumOfFour(q: seq<sextet>)
    requires |q| == 4
    ensures var t := Triple(q); Quantum(t[0], t[1], t[2]) == q
  {
    SextetsBack(q[0], q[1], q[2], q[3]);
    QuantumBack(First(q[0], q[1]), Second(q[1], q[2]), Third(q[2], q[3]), q[0], q[1], q[2], q[3]);
  }

  lemma QuantumOfTwo(q: seq<sextet>)
    requires |q| == 2 && q[1] % 16 == 0
    ensures Quantum(Triple(q)[0], 0, 0)[..2] == q
  {
    SextetsBack(q[0], q[1], 0, 0);
  }

  lemma QuantumOfThree(q: seq<sextet>)
    requires |q| == 3 && q[2] % 4 == 0
    ensures Quantum(Triple(q)[0], Triple(q)[1], 0)[..3] == q
  {
    SextetsBack(q[0], q[1], q[2], 0);
  }

  lemma SpelledStep(bs: seq<byte>, rest: seq<byte>)
    requires |bs| >= 3 && rest == bs[3..]
    ensures Spelled(bs) == Quantum(bs[0], bs[1], bs[2]) + Spelled(rest)
  {
  }

  lemma {:induction false} SpelledOfBytes(vs: seq<sextet>)
    requires Clean(vs)
    ensures Spelled(Bytes(vs)) == vs
  {
    if |vs| >= 4 {
      SpelledOfBytes(vs[4..]);
      QuantumOfFour(vs[..4]);
      BytesStep(vs, vs[..4], vs[4..]);
      SpelledStep(Bytes(vs), Bytes(vs)[3..]);
      assert Bytes(vs)[3..] == Bytes(vs[4..]);
      assert vs == vs[..4] + vs[4..];
    } else if |vs| == 3 {
      QuantumOfThree(vs);
    } else if |vs| == 2 {
      QuantumOfTwo(vs);
    }
  }

  lemma CharsOfPrefix(s: string)
    ensures Chars(PrefixSextets(s)) == s[..PrefixLength(s)]
  {
    forall k | 0 <= k < PrefixLength(s) ensures Chars(PrefixSextets(s))[k] == s[k] {
      TablesAreInverse(0, s[k]);
    }
  }

  lemma BytesLeft(v: nat, p: nat)
    requires (v + p) % 4 == 0 && p < 3
    ensures DecodedLength(v) % 3 == (3 - p) % 3
  {
    assert v % 4 == (4 - p) % 4;
    assert DecodedLength(v) == 3 * (v / 4) + (if p == 0 then 0 else 3 - p);
  }

  lemma PaddingFor(v: nat, pad: string)
    requires (v + |pad|) % 4 == 0 && |pad| < 3 && forall k :: 0 <= k < |pad| ==> pad[k] == PAD
    ensures Padding(DecodedLength(v)) == pad
  {
    BytesLeft(v, |pad|);
  }

  lemma PaddingOfCanonical(s: string)
    requires Canonical(s)
    ensures Padding(DecodedLength(PrefixLength(s))) == s[PrefixLength(s)..]
  {
    PaddingFor(PrefixLength(s), s[PrefixLength(s)..]);
  }

  lemma CleanOfCanonical(s: string)
    requires Canonical(s)
    ensures Clean(PrefixSextets(s))
  {
  }

  lemma CanonicalIsEncoded(s: string)
    requires Canonical(s)
    ensures Encoded(Decoded(s)) == s
  {
    var vs := PrefixSextets(s);
    CleanOfCanonical(s);
    DecodedIsBytes(s, vs);
    SpelledOfBytes(vs);
    EncodedIsSpelled(Bytes(vs));
    BytesLength(vs);
    CharsOfPrefix(s);
    PaddingOfCanonical(s);
    SplitAt(s, PrefixLength(s));
  }

  lemma SplitAt(s: string, i: nat)
    requires i <= |s|
    ensures s == s[..i] + s[i..]
  {
  }

  /** Encoding a decoded text gives the text back exactly when it is canonical. */
  lemma EncodeOfDecodeIff(s: string)
    ensures Encoded(Decoded(s)) == s <==> Canonical(s)
  {
    if Canonical(s) {
      CanonicalIsEncoded(s);
    }
    EncodedIsCanonical(Decoded(s));
  }

  // ---------------------------------------------------------------- hexadecimal form

  function HexDigit(d: nat, ten: char): (c: char)
    requires d < 16 && (ten == 'a' || ten == 'A')
  {
    if d < 10 then '0' + d as char else ten + (d - 10) as char
  }

  function Hex(bs: seq<byte>, ten: char): (s: string)
    requires ten == 'a' || ten == 'A'
    ensures |s| == 2 * |bs|
  {
    if bs == [] then ""
    else
      var b: int := bs[|bs| - 1];
      Hex(bs[..|bs| - 1], ten) + [HexDigit(b / 16, ten), HexDigit(b % 16, ten)]
  }

  /** std::hex with width two prints lower-case digits. */
  method StrToHex(bs: seq<byte>) returns (s: string)
    ensures s == Hex(bs, 'a')
  {
    s := "";
    for i := 0 to |bs|
      invariant s == Hex(bs[..i], 'a')
    {
      assert bs[..i + 1][..i] == bs[..i];
      var b: int := bs[i];
      s := s + [HexDigit(b / 16, 'a'), HexDigit(b % 16, 'a')];
    }
    assert bs[..|bs|] == bs;
  }

  function ToUpper(c: char): char {
    if 'a' <= c <= 'z' then 'A' + (c - 'a') else c
  }

  function UpperCase(s: string): (d: string)
    ensures |d| == |s|
  {
    seq(|s|, i requires 0 <= i < |s| => ToUpper(s[i]))
  }

  lemma {:induction false} UpperCaseOfHex(bs: seq<byte>)
    ensures UpperCase(Hex(bs, 'a')) == Hex(bs, 'A')
  {
    if bs != [] {
      UpperCaseOfHex(bs[..|bs| - 1]);
      var a, b := Hex(bs[..|bs| - 1], 'a'), [HexDigit(bs[|bs| - 1] / 16, 'a'), HexDigit(bs[|bs| - 1] % 16, 'a')];
      assert UpperCase(a + b) == UpperCase(a) + UpperCase(b);
    }
  }

  /** base64_to_hex: of an encoding, the upper-case hexadecimal digits of the bytes, two for each. */
  /** Characters 2 * i and 2 * i + 1 spell the high and the low half of byte i. */
  lemma {:induction false} HexAt(bs: seq<byte>, i: nat)
    requires i < |bs|
    ensures |Hex(bs, 'A')| == |Hex(bs, 'a')| == 2 * |bs|
    ensures Hex(bs, 'A')[2 * i] == "0123456789ABCDEF"[bs[i] / 16] && Hex(bs, 'A')[2 * i + 1] == "0123456789ABCDEF"[bs[i] % 16]
    ensures Hex(bs, 'a')[2 * i] == "0123456789abcdef"[bs[i] / 16] && Hex(bs, 'a')[2 * i + 1] == "0123456789abcdef"[bs[i] % 16]
  {
    var init, b := bs[..|bs| - 1], bs[|bs| - 1];
    if i < |init| {
      HexAt(init, i);
    } else {
      DigitsAre(b / 16);
      DigitsAre(b % 16);
    }
  }

  lemma DigitsAre(d: nat)
    requires d < 16
    ensures HexDigit(d, 'A') == "0123456789ABCDEF"[d] && HexDigit(d, 'a') == "0123456789abcdef"[d]
  {
  }

  method Base64ToHex(k: string) returns (hex: Option<string>)
    ensures hex == if |Decoded(k)| <= DecodedSize(|k|) then Some(Hex(Decoded(k), 'A')) else None
    ensures forall bs: seq<byte> :: k == Encoded(bs) ==> hex == Some(Hex(bs, 'A'))
  {
    var decoded := Base64Decode(k);
    hex := None;
    if decoded.Some? {
      var lower := StrToHex(decoded.value);
      UpperCaseOfHex(decoded.value);
      hex := Some(UpperCase(lower));
    }
    forall bs: seq<byte> | k == Encoded(bs) ensures hex == Some(Hex(bs, 'A')) {
      DecodeOfEncode(bs);
    }
  }
}

/**
 Base64 after section 4 of RFC 4648. Bytes are numbers below 256 and sextets numbers below 64; masks and shifts
 by constants are written as division and remainder.
 */
module Base64 {
  import opened Wrappers

  type byte = x: int | 0 <= x < 256
  type sextet = x: int | 0 <= x < 64

  const PAD := '='

  function CharOf(v: sextet): char {
    if v < 26 then 'A' + v as char
    else if v < 52 then 'a' + (v - 26) as char
    else if v < 62 then '0' + (v - 52) as char
    else if v == 62 then '+' else '/'
  }

  /** The inverse table: -1 outside the alphabet. */
  function SextetOf(c: char): (v: int)
    ensures -1 <= v < 64
  {
    if 'A' <= c <= 'Z' then (c - 'A') as int
    else if 'a' <= c <= 'z' then (c - 'a') as int + 26
    else if '0' <= c <= '9' then (c - '0') as int + 52
    else if c == '+' then 62 else if c == '/' then 63 else -1
  }

  lemma TablesAreInverse(v: sextet, c: char)
    ensures SextetOf(CharOf(v)) == v
    ensures SextetOf(c) >= 0 ==> CharOf(SextetOf(c)) == c
    ensures SextetOf(PAD) == -1 && SextetOf('\n') == -1
  {
  }

  function EncodedSize(n: nat): nat {
    4 * ((n + 2) / 3)
  }

  function DecodedSize(n: nat): nat {
    n / 4 * 3
  }

  // ---------------------------------------------------------------- what encode writes

  function Quantum(a: byte, b: byte, c: byte): (q: seq<sextet>)
    ensures |q| == 4
  {
    [a / 4, a % 4 * 16 + b / 16, c / 64 + b % 16 * 4, c % 64]
  }

  function Chars(vs: seq<sextet>): (s: string)
    ensures |s| == |vs|
  {
    seq(|vs|, i requires 0 <= i < |vs| => CharOf(vs[i]))
  }

  function Encoded(src: seq<byte>): (s: string)
    ensures |s| == EncodedSize(|src|)
  {
    if |src| == 0 then ""
    else if |src| == 1 then Chars(Quantum(src[0], 0, 0)[..2]) + [PAD, PAD]
    else if |src| == 2 then Chars(Quantum(src[0], src[1], 0)[..3]) + [PAD]
    else Chars(Quantum(src[0], src[1], src[2])) + Encoded(src[3..])
  }

  /** *out++ four times. */
  method Emit(dest: array<char>, out: nat, q: string)
    requires |q| == 4 && out + 4 <= dest.Length
    modifies dest
    ensures dest[..out + 4] == old(dest[..out]) + q
    ensures forall k :: out + 4 <= k < dest.Length ==> dest[k] == old(dest[k])
  {
    dest[out], dest[out + 1], dest[out + 2], dest[out + 3] := q[0], q[1], q[2], q[3];
  }

  /** encode's pointers: whole quanta are behind them and `rounds` quanta ahead. */
  predicate Ahead(n: nat, inp: nat, out: nat, rounds: nat) {
    inp + 3 * rounds + n % 3 == n && out + 4 * rounds == n / 3 * 4
  }

  /** What is written is the encoding up to the bytes ahead. */
  ghost predicate EncodedSoFar(written: string, src: seq<byte>, inp: nat) {
    inp <= |src| && written + Encoded(src[inp..]) == Encoded(src)
  }

  /** The body of encode's loop: three bytes become four characters. */
  method EncodeQuantum(dest: array<char>, src: seq<byte>, inp: nat, out: nat)
    requires inp + 3 <= |src| && out + 4 <= dest.Length && EncodedSoFar(dest[..out], src, inp)
    modifies dest
    ensures EncodedSoFar(dest[..out + 4], src, inp + 3)
    ensures forall k :: out + 4 <= k < dest.Length ==> dest[k] == old(dest[k])
  {
    EncodedQuantum(src, inp, dest[..out]);
    Emit(dest, out, Four(src[inp], src[inp + 1], src[inp + 2]));
  }

  lemma AheadFits(n: nat, inp: nat, out: nat, rounds: nat)
    requires Ahead(n, inp, out, rounds)
    ensures out + (if rounds > 0 then 4 else 0) <= EncodedSize(n) && (rounds > 0 ==> inp + 3 <= n && Ahead(n, inp + 3, out + 4, rounds - 1))
    ensures rounds == 0 ==> n == inp + n % 3 && EncodedSize(n) == out + if n > inp then 4 else 0
  {
  }

  method Encode(dest: array<char>, src: seq<byte>) returns (n: nat)
    requires dest.Length >= EncodedSize(|src|)
    modifies dest
    ensures n == EncodedSize(|src|) && dest[..n] == Encoded(src)
    ensures forall k :: n <= k < dest.Length ==> dest[k] == old(dest[k])
  {
    var inp: nat, out: nat := 0, 0;
    var rounds: nat := |src| / 3;
    assert src[0..] == src && EncodedSoFar("", src, 0);
    while rounds > 0
      invariant Ahead(|src|, inp, out, rounds) && out <= dest.Length
      invariant EncodedSoFar(dest[..out], src, inp)
      invariant forall k :: out <= k < dest.Length ==> dest[k] == old(dest[k])
    {
      AheadFits(|src|, inp, out, rounds);
      EncodeQuantum(dest, src, inp, out);
      inp, out, rounds := inp + 3, out + 4, rounds - 1;
    }
    AheadFits(|src|, inp, out, rounds);
    n := EncodeTail(dest, src, inp, out);
  }

  /** The last one or two bytes, padded. */
  method EncodeTail(dest: array<char>, src: seq<byte>, inp: nat, out: nat) returns (n: nat)
    requires |src| == inp + |src| % 3 && out + (if |src| > inp then 4 else 0) <= dest.Length
    requires EncodedSoFar(dest[..out], src, inp)
    modifies dest
    ensures n == out + (if |src| > inp then 4 else 0) && dest[..n] == Encoded(src)
    ensures forall k :: n <= k < dest.Length ==> dest[k] == old(dest[k])
  {
    EncodedTail(src, inp);
    n := out;
    match |src| % 3 {
      case 2 =>
        Emit(dest, n, [CharOf(src[inp] / 4), CharOf(src[inp] % 4 * 16 + src[inp + 1] / 16), CharOf(src[inp + 1] % 16 * 4), PAD]);
        n := n + 4;
      case 1 =>
        Emit(dest, n, [CharOf(src[inp] / 4), CharOf(src[inp] % 4 * 16), PAD, PAD]);
        n := n + 4;
      case _ =>
    }
  }

  function Four(a: byte, b: byte, c: byte): (q: string)
    ensures |q| == 4
  {
    [CharOf(a / 4), CharOf(a % 4 * 16 + b / 16), CharOf(c / 64 + b % 16 * 4), CharOf(c % 64)]
  }

  lemma EncodedQuantum(src: seq<byte>, inp: nat, before: string)
    requires inp + 3 <= |src| && EncodedSoFar(before, src, inp)
    ensures EncodedSoFar(before + Four(src[inp], src[inp + 1], src[inp + 2]), src, inp + 3)
  {
    Grouped(before, Four(src[inp], src[inp + 1], src[inp + 2]), Encoded(src[inp + 3..]));
    EncodedFour(src[inp..], Four(src[inp], src[inp + 1], src[inp + 2]), src[inp + 3..]);
  }

  lemma Grouped(a: string, b: string, c: string)
    ensures a + (b + c) == (a + b) + c
  {
  }

  lemma EncodedFour(src: seq<byte>, q: string, rest: seq<byte>)
    requires |src| >= 3 && q == Four(src[0], src[1], src[2]) && rest == src[3..]
    ensures Encoded(src) == q + Encoded(rest)
  {
    CharsOfQuantum(src[0], src[1], src[2]);
  }

  lemma CharsOfQuantum(a: byte, b: byte, c: byte)
    ensures Chars(Quantum(a, b, c)) == Four(a, b, c)
  {
  }

  lemma EncodedTail(src: seq<byte>, inp: nat)
    requires inp <= |src| < inp + 3
    ensures |src| == inp ==> Encoded(src[inp..]) == ""
    ensures |src| == inp + 1 ==> Encoded(src[inp..]) == [CharOf(src[inp] / 4), CharOf(src[inp] % 4 * 16), PAD, PAD]
    ensures |src| == inp + 2 ==>
      Encoded(src[inp..]) == [CharOf(src[inp] / 4), CharOf(src[inp] % 4 * 16 + src[inp + 1] / 16), CharOf(src[inp + 1] % 16 * 4), PAD]
  {
  }

  method Base64Encode(data: seq<byte>) returns (s: string)
    ensures s == Encoded(data)
  {
    var dest := new char[EncodedSize(|data|)];
    var n := Encode(dest, data);
    s := dest[..n];
  }

  // ---------------------------------------------------------------- what decode writes

  /** The length of the longest prefix of alphabet characters. */
  function PrefixLength(s: string): (v: nat)
    ensures v <= |s|
    ensures forall k :: 0 <= k < v ==> SextetOf(s[k]) >= 0
    ensures v < |s| ==> SextetOf(s[v]) == -1
  {
    if s == "" || SextetOf(s[0]) == -1 then 0 else 1 + PrefixLength(s[1..])
  }

  function Sextets(s: string): (vs: seq<sextet>)
    requires forall k :: 0 <= k < |s| ==> SextetOf(s[k]) >= 0
    ensures |vs| == |s|
  {
    seq(|s|, k requires 0 <= k < |s| => SextetOf(s[k]))
  }

  function First(a: int, b: int): byte {
    (a * 4 + b / 16 % 4) % 256
  }

  function Second(b: int, c: int): byte {
    (b % 16 * 16 + c / 4 % 16) % 256
  }

  function Third(c: int, d: int): byte {
    (c % 4 * 64 + d) % 256
  }

  /** A quantum of n sextets yields n - 1 bytes. */
  function Triple(q: seq<sextet>): (bs: seq<byte>)
    requires 1 <= |q| <= 4
    ensures |bs| == |q| - 1
  {
    (if |q| >= 2 then [First(q[0], q[1])] else [])
    + (if |q| >= 3 then [Second(q[1], q[2])] else [])
    + (if |q| >= 4 then [Third(q[2], q[3])] else [])
  }

  function Bytes(vs: seq<sextet>): seq<byte> {
    if |vs| == 0 then [] else if |vs| <= 4 then Triple(vs) else Triple(vs[..4]) + Bytes(vs[4..])
  }

  function Decoded(s: string): seq<byte> {
    Bytes(Sextets(s[..PrefixLength(s)]))
  }

  function DecodedLength(v: nat): nat {
    v / 4 * 3 + if v % 4 > 1 then v % 4 - 1 else 0
  }

  lemma {:induction false} BytesLength(vs: seq<sextet>)
    ensures |Bytes(vs)| == DecodedLength(|vs|)
  {
    if |vs| > 4 {
      BytesLength(vs[4..]);
    }
  }

  /** The bytes decode writes fit into decoded_size(len) exactly when the last, partial quantum of the input is not
      one of two or three alphabet characters. */
  lemma FitsIff(s: string)
    ensures |Decoded(s)| <= DecodedSize(|s|) <==> !(PrefixLength(s) / 4 == |s| / 4 && PrefixLength(s) % 4 >= 2)
    ensures |s| % 4 == 0 ==> |Decoded(s)| <= DecodedSize(|s|)
  {
    BytesLength(Sextets(s[..PrefixLength(s)]));
  }

  /** Two characters without padding stand for a byte that decoded_size has no room for. */
  lemma UnpaddedOverruns()
    ensures |Decoded("QQ")| == 1 && DecodedSize(|"QQ"|) == 0
  {
    assert PrefixLength("QQ"[1..]) == 1;
    BytesLength(Sextets("QQ"[..PrefixLength("QQ")]));
  }

  /** Emitting bytes: *out++ = c3[j] for j below n. */
  method EmitBytes(dest: array<byte>, out: nat, c3: array<byte>, n: nat)
    requires c3.Length == 3 && n <= 3 && out + n <= dest.Length && dest != c3
    modifies dest
    ensures dest[..out + n] == old(dest[..out]) + c3[..n]
  {
    for j := 0 to n
      invariant dest[..out + j] == old(dest[..out]) + c3[..j]
    {
      dest[out + j] := c3[j];
    }
  }

  /** c3 from c4, whatever the four cells hold. */
  method Combine(c3: array<byte>, c4: array<byte>)
    requires c3.Length == 3 && c4.Length == 4 && c3 != c4
    modifies c3
    ensures c3[..] == [First(c4[0], c4[1]), Second(c4[1], c4[2]), Third(c4[2], c4[3])]
  {
    c3[0] := First(c4[0], c4[1]);
    c3[1] := Second(c4[1], c4[2]);
    c3[2] := Third(c4[2], c4[3]);
  }

  /** The first n - 1 of the three bytes depend on the first n cells only. */
  lemma StaleCellsDoNotShow(c4: seq<byte>, q: seq<sextet>)
    requires |c4| == 4 && 1 <= |q| <= 4 && forall k :: 0 <= k < |q| ==> c4[k] == q[k]
    ensures [First(c4[0], c4[1]), Second(c4[1], c4[2]), Third(c4[2], c4[3])][..|q| - 1] == Triple(q)
  {
  }

  lemma {:induction false} BytesConcat(a: seq<sextet>, k: nat, b: seq<sextet>)
    requires |a| == 4 * k
    ensures Bytes(a + b) == Bytes(a) + Bytes(b)
    decreases k
  {
    if k == 0 {
      assert a + b == b;
    } else if b == [] {
      assert a + b == a;
    } else {
      BytesConcat(a[4..], k - 1, b);
      FirstOfConcat(a, b);
      BytesFrom(a, a + b, a[..4], a[4..], b, a[4..] + b);
    }
  }

  lemma FirstOfConcat(a: seq<sextet>, b: seq<sextet>)
    requires |a| >= 4
    ensures (a + b)[..4] == a[..4] && (a + b)[4..] == a[4..] + b
  {
  }

  lemma BytesFrom(a: seq<sextet>, all: seq<sextet>, q: seq<sextet>, rest: seq<sextet>, b: seq<sextet>, more: seq<sextet>)
    requires |a| >= 4 && |all| >= 4 && q == a[..4] == all[..4] && rest == a[4..] && more == all[4..]
    requires Bytes(more) == Bytes(rest) + Bytes(b)
    ensures Bytes(all) == Bytes(a) + Bytes(b)
  {
    BytesStep(a, q, rest);
    BytesStep(all, q, more);
    BytesInTurn(Triple(q), Bytes(rest), Bytes(b));
  }

  lemma BytesInTurn(a: seq<byte>, b: seq<byte>, c: seq<byte>)
    ensures a + (b + c) == (a + b) + c
  {
  }

  lemma BytesStep(vs: seq<sextet>, q: seq<sextet>, rest: seq<sextet>)
    requires |vs| >= 4 && q == vs[..4] && rest == vs[4..]
    ensures Bytes(vs) == Triple(q) + Bytes(rest)
  {
    if |vs| == 4 {
      assert q == vs && rest == [];
    }
  }

  ghost function PrefixSextets(s: string): (vs: seq<sextet>)
    ensures |vs| == PrefixLength(s)
  {
    Sextets(s[..PrefixLength(s)])
  }

  lemma QuantumDone(done: seq<sextet>, k: nat, q: seq<sextet>)
    requires |done| == 4 * k && 1 <= |q| <= 4
    ensures Bytes(done + q) == Bytes(done) + Triple(q)
  {
    BytesConcat(done, k, q);
  }

  /** Combine the cells and emit the bytes of a quantum of which n + 1 sextets are in the cells. */
  method Flush(dest: array<byte>, out: nat, c3: array<byte>, c4: array<byte>, n: nat, ghost q: seq<sextet>)
    requires c3.Length == 3 && c4.Length == 4 && c3 != c4 && dest != c3 && dest != c4
    requires n <= 3 && |q| == n + 1 && out + n <= dest.Length
    requires Waiting(q, c4)
    modifies dest, c3
    ensures dest[..out + n] == old(dest[..out]) + Triple(q)
  {
    StaleCellsDoNotShow(c4[..], q);
    Combine(c3, c4);
    assert c3[..n] == c3[..][..n];
    EmitBytes(dest, out, c3, n);
  }

  /** The waiting sextets are in the first cells; the other cells hold anything. */
  ghost predicate Waiting(q: seq<sextet>, c4: array<byte>)
    reads c4
  {
    |q| <= c4.Length && forall j :: 0 <= j < |q| ==> c4[j] == q[j]
  }

  /** One character of the alphabet: the fourth of a quantum has its bytes emitted. */
  method Take(dest: array<byte>, out: nat, c3: array<byte>, c4: array<byte>, i: nat, v: sextet, ghost q: seq<sextet>)
    returns (out': nat, i': nat, ghost q': seq<sextet>)
    requires c3.Length == 3 && c4.Length == 4 && c3 != c4 && dest != c3 && dest != c4
    requires i == |q| < 4 && Waiting(q, c4) && out + (if i == 3 then 3 else 0) <= dest.Length
    modifies dest, c3, c4
    ensures i' == |q'| && Waiting(q', c4) && out' == out + (if i == 3 then 3 else 0)
    ensures i == 3 ==> q' == [] && dest[..out'] == old(dest[..out]) + Triple(q + [v])
    ensures i < 3 ==> q' == q + [v] && dest[..out'] == old(dest[..out])
  {
    ghost var before := dest[..out];
    c4[i] := v;
    assert dest[..out] == before;
    if i == 3 {
      Flush(dest, out, c3, c4, 3, q + [v]);
      out', i', q' := out + 3, 0, [];
    } else {
      out', i', q' := out, i + 1, q + [v];
    }
  }

  /** The characters left in the cells. */
  method Finish(dest: array<byte>, out: nat, c3: array<byte>, c4: array<byte>, i: nat, ghost q: seq<sextet>) returns (out': nat)
    requires c3.Length == 3 && c4.Length == 4 && c3 != c4 && dest != c3 && dest != c4
    requires i == |q| < 4 && Waiting(q, c4) && out + (if i > 1 then i - 1 else 0) <= dest.Length
    modifies dest, c3
    ensures out' == out + (if i > 1 then i - 1 else 0)
    ensures dest[..out'] == old(dest[..out]) + (if i == 0 then [] else Triple(q))
  {
    if i == 0 {
      return out;
    }
    Flush(dest, out, c3, c4, i - 1, q);
    return out + (i - 1);
  }

  /** The buffer has room for the quantum under way. */
  lemma Room(n: nat, k: nat, i: nat)
    requires i < 4 && 4 * k + i <= n
    ensures 3 * k <= DecodedLength(n) && (4 * k + 4 <= n ==> 3 * k + 3 <= DecodedLength(n))
    ensures 4 * k + i == n ==> DecodedLength(n) == 3 * k + (if i > 1 then i - 1 else 0)
  {
  }

  /** The sextets of the first `inp` characters. */
  ghost predicate HasRead(src: string, read: seq<sextet>, inp: nat) {
    |read| == inp <= PrefixLength(src) && read == PrefixSextets(src)[..inp]
  }

  /** `k` whole quanta are decoded, and fewer than four sextets wait. */
  ghost predicate HasDecoded(done: seq<sextet>, k: nat, q: seq<sextet>, decoded: seq<byte>) {
    |done| == 4 * k && |q| < 4 && decoded == Bytes(done) && |decoded| == 3 * k
  }

  lemma ReadNext(src: string, read: seq<sextet>, inp: nat, v: sextet)
    requires HasRead(src, read, inp) && inp < PrefixLength(src) && v == SextetOf(src[inp])
    ensures HasRead(src, read + [v], inp + 1)
  {
  }

  lemma DecodeNext(done: seq<sextet>, k: nat, q: seq<sextet>, decoded: seq<byte>)
    requires |done| == 4 * k && decoded == Bytes(done) && |decoded| == 3 * k && |q| == 4
    ensures HasDecoded(done + q, k + 1, [], decoded + Triple(q))
  {
    QuantumDone(done, k, q);
  }

  lemma Regrouped(done: seq<sextet>, q: seq<sextet>, v: sextet)
    ensures done + (q + [v]) == (done + q) + [v] && done + (q + [v]) + [] == (done + q) + [v]
  {
  }

  lemma ReadAll(src: string, done: seq<sextet>, k: nat, q: seq<sextet>, inp: nat, decoded: seq<byte>)
    requires HasRead(src, done + q, inp) && HasDecoded(done, k, q, decoded) && (inp < |src| ==> SextetOf(src[inp]) == -1)
    ensures inp == PrefixLength(src) && decoded + (if |q| == 0 then [] else Triple(q)) == Decoded(src)
  {
    assert PrefixSextets(src)[..inp] == PrefixSextets(src);
    if q == [] {
      assert done + q == done;
    } else {
      QuantumDone(done, k, q);
    }
  }

  /** decode reads exactly the alphabet prefix and writes exactly the bytes it stands for; the four-cell buffer starts
      with arbitrary contents and keeps stale ones, which never show. */
  method Decode(dest: array<byte>, src: string) returns (written: nat, read: nat)
    requires dest.Length >= |Decoded(src)|
    modifies dest
    ensures read == PrefixLength(src) && written == DecodedLength(read)
    ensures written <= dest.Length && dest[..written] == Decoded(src)
  {
    var c3, c4 := new byte[3], new byte[4];
    ghost var n, k := PrefixLength(src), 0;
    ghost var done: seq<sextet>, q: seq<sextet> := [], [];
    BytesLength(PrefixSextets(src));
    var inp: nat, out: nat, i: nat := 0, 0, 0;
    while inp < |src| && src[inp] != PAD
      invariant i == |q| && out <= dest.Length && Waiting(q, c4)
      invariant HasRead(src, done + q, inp) && HasDecoded(done, k, q, dest[..out])
    {
      Room(n, k, i);
      var v := SextetOf(src[inp]);
      if v == -1 {
        break;
      }
      NotBeyond(src, inp);
      ReadNext(src, done + q, inp, v);
      Regrouped(done, q, v);
      if i == 3 {
        DecodeNext(done, k, q + [v], dest[..out]);
        done, k := done + (q + [v]), k + 1;
      }
      out, i, q := Take(dest, out, c3, c4, i, v, q);
      inp := inp + 1;
    }
    TablesAreInverse(0, PAD);
    ReadAll(src, done, k, q, inp, dest[..out]);
    Room(n, k, i);
    out := Finish(dest, out, c3, c4, i, q);
    written, read := out, inp;
  }

  lemma NotBeyond(src: string, inp: nat)
    requires inp <= PrefixLength(src) && inp < |src| && SextetOf(src[inp]) != -1
    ensures inp < PrefixLength(src)
  {
  }

  lemma AtMostTwoMore(data: string)
    ensures |Decoded(data)| <= DecodedSize(|data|) + 2
  {
    BytesLength(PrefixSextets(data));
  }

  /** base64_decode. The string it sizes to decoded_size(len) lies in a memory of two more bytes here, which decode may
      overwrite: then the result of the source is undefined, and nothing is returned. */
  method Base64Decode(data: string) returns (bs: Option<seq<byte>>)
    ensures bs == if |Decoded(data)| <= DecodedSize(|data|) then Some(Decoded(data)) else None
    ensures bs.None? <==> PrefixLength(data) / 4 == |data| / 4 && PrefixLength(data) % 4 >= 2
  {
    AtMostTwoMore(data);
    FitsIff(data);
    var size := DecodedSize(|data|);
    var memory := new byte[size + 2];
    var written, read := Decode(memory, data);
    bs := if written <= size then Some(memory[..written]) else None;
  }
}

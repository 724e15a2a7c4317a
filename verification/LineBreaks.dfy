/** Breaking a text into lines in place, and the pem and mime forms of an encoding: 64 columns as in section 2 of
    RFC 7468 and 76 columns as in section 6.8 of RFC 2045. */
module LineBreaks {
  import opened Text
  import opened Base64
  import opened Base64Laws

  /** The lines of s: as many full ones as leave something for the last. */
  function Lines(s: string, distance: nat): (ls: seq<string>)
    requires distance >= 1
    ensures ls != []
    decreases |s|
  {
    if |s| <= distance then [s] else [s[..distance]] + Lines(s[distance..], distance)
  }

  function Broken(s: string, distance: nat): string
    requires distance >= 1
  {
    Glue(Lines(s, distance), "\n")
  }

  lemma BrokenStep(s: string, distance: nat)
    requires 1 <= distance < |s|
    ensures Broken(s, distance) == s[..distance] + "\n" + Broken(s[distance..], distance)
  {
    assert Lines(s, distance)[1..] == Lines(s[distance..], distance);
  }

  /** The text grows with every round, but what is left to break shrinks by `distance`. */
  method InsertLinebreaks(s: string, distance: nat) returns (str: string)
    requires distance >= 1
    ensures str == Broken(s, distance)
  {
    str := s;
    if |str| == 0 {
      return;
    }
    var pos := distance;
    while pos < |str|
      invariant distance <= pos && pos - distance <= |str|
      invariant str[..pos - distance] + Broken(str[pos - distance..], distance) == Broken(s, distance)
      decreases |str| - pos
    {
      InsertStep(str, distance, pos);
      str := str[..pos] + "\n" + str[pos..];
      pos := pos + distance + 1;
    }
    assert str[..pos - distance] + str[pos - distance..] == str;
  }

  lemma InsertStep(str: string, distance: nat, pos: nat)
    requires 1 <= distance <= pos < |str|
    ensures var str' := str[..pos] + "\n" + str[pos..];
      str'[..pos + 1] + Broken(str'[pos + 1..], distance) == str[..pos - distance] + Broken(str[pos - distance..], distance)
  {
    var rest := str[pos - distance..];
    var str' := str[..pos] + "\n" + str[pos..];
    BrokenStep(rest, distance);
    assert rest[distance..] == str[pos..] == str'[pos + 1..];
    assert str[..pos - distance] + rest[..distance] == str[..pos];
    assert str'[..pos + 1] == str[..pos] + "\n";
  }

  function Unbroken(ls: seq<string>): string {
    if ls == [] then "" else ls[0] + Unbroken(ls[1..])
  }

  /** Every line but the last has exactly `distance` characters, the last of a non-empty text is not empty and not
      longer, and without the feeds the lines are the text. */
  lemma {:induction false} LinesAreEven(s: string, distance: nat)
    requires distance >= 1
    ensures var ls := Lines(s, distance);
      && (forall i :: 0 <= i < |ls| - 1 ==> |ls[i]| == distance)
      && |ls[|ls| - 1]| <= distance && (s != "" ==> ls[|ls| - 1] != "")
      && Unbroken(ls) == s
    decreases |s|
  {
    if |s| > distance {
      LinesAreEven(s[distance..], distance);
      assert Lines(s, distance)[1..] == Lines(s[distance..], distance);
      assert s == s[..distance] + s[distance..];
    }
  }

  lemma {:induction false} LinesFeedFree(s: string, distance: nat)
    requires distance >= 1 && '\n' !in s
    ensures DelimiterFree(Lines(s, distance), '\n')
    decreases |s|
  {
    if |s| > distance {
      LinesFeedFree(s[distance..], distance);
    }
  }

  /** For a text without feeds, the lines are what lies between the feeds of the broken text. */
  lemma LinesAreThePieces(s: string, distance: nat)
    requires distance >= 1 && '\n' !in s
    ensures Pieces(Broken(s, distance), "\n") == Lines(s, distance)
  {
    LinesFeedFree(s, distance);
    PiecesOfGlue(Lines(s, distance), '\n');
  }

  // ---------------------------------------------------------------- pem and mime

  method Base64EncodeWithLineBreaks(s: seq<byte>, lineLength: nat) returns (text: string)
    requires lineLength >= 1
    ensures text == Broken(Encoded(s), lineLength)
  {
    var encoded := Base64Encode(s);
    text := InsertLinebreaks(encoded, lineLength);
  }

  method Base64EncodePem(s: seq<byte>) returns (text: string)
    ensures text == Broken(Encoded(s), 64)
    ensures Decoded(text) == s[..if |s| < 48 then |s| else 48] && |Decoded(text)| <= DecodedSize(|text|)
  {
    text := Base64EncodeWithLineBreaks(s, 64);
    DecodeOfBroken(s, 16);
  }

  method Base64EncodeMime(s: seq<byte>) returns (text: string)
    ensures text == Broken(Encoded(s), 76)
    ensures Decoded(text) == s[..if |s| < 57 then |s| else 57] && |Decoded(text)| <= DecodedSize(|text|)
  {
    text := Base64EncodeWithLineBreaks(s, 76);
    DecodeOfBroken(s, 19);
  }

  lemma {:induction false} EncodedConcat(a: seq<byte>, k: nat, b: seq<byte>)
    requires |a| == 3 * k
    ensures Encoded(a + b) == Encoded(a) + Encoded(b)
    decreases k
  {
    if k == 0 {
      assert a + b == b;
    } else {
      EncodedConcat(a[3..], k - 1, b);
      TailOfConcat(a, b);
      ConcatFrom(a, a + b, Four(a[0], a[1], a[2]), a[3..], b, a[3..] + b);
    }
  }

  lemma TailOfConcat(a: seq<byte>, b: seq<byte>)
    requires |a| >= 3
    ensures (a + b)[3..] == a[3..] + b
  {
  }

  lemma ConcatFrom(a: seq<byte>, all: seq<byte>, q: string, rest: seq<byte>, b: seq<byte>, more: seq<byte>)
    requires |a| >= 3 && |all| >= 3 && q == Four(a[0], a[1], a[2]) == Four(all[0], all[1], all[2])
    requires rest == a[3..] && more == all[3..] && Encoded(more) == Encoded(rest) + Encoded(b)
    ensures Encoded(all) == Encoded(a) + Encoded(b)
  {
    EncodedFour(a, q, rest);
    EncodedFour(all, q, more);
    Grouped(q, Encoded(rest), Encoded(b));
  }

  lemma WholeQuantaThenFeed(a: seq<byte>, tail: string)
    requires |a| % 3 == 0 && tail != "" && tail[0] == '\n'
    ensures Decoded(Encoded(a) + tail) == a
  {
    EncodedIsSpelled(a);
    assert Chars(Spelled(a)) + Padding(|a|) == Chars(Spelled(a));
    TablesAreInverse(0, 'A');
    SextetsOfChars(Spelled(a), tail);
    DecodedIsBytes(Encoded(a) + tail, Spelled(a));
    BytesOfSpelled(a, Spelled(a));
  }

  lemma Sizes(n: nat, quanta: nat)
    ensures EncodedSize(n) > 4 * quanta <==> n > 3 * quanta
    ensures EncodedSize(3 * quanta) == 4 * quanta
  {
  }

  lemma BrokenAt(a: string, b: string, distance: nat)
    requires |a| == distance >= 1 && b != ""
    ensures Broken(a + b, distance) == a + ("\n" + Broken(b, distance))
  {
    BrokenStep(a + b, distance);
    assert (a + b)[..distance] == a && (a + b)[distance..] == b;
  }

  lemma FirstLine(a: seq<byte>, b: seq<byte>, distance: nat)
    requires |a| % 3 == 0 && b != [] && |Encoded(a)| == distance >= 1
    ensures Decoded(Broken(Encoded(a + b), distance)) == a
    ensures |Broken(Encoded(a + b), distance)| >= distance
  {
    EncodedConcat(a, |a| / 3, b);
    BrokenAt(Encoded(a), Encoded(b), distance);
    WholeQuantaThenFeed(a, "\n" + Broken(Encoded(b), distance));
  }

  /** base64_decode stops at the first feed: of a broken encoding it returns the bytes of the first line only. */
  lemma DecodeOfBroken(s: seq<byte>, quanta: nat)
    requires quanta >= 1
    ensures var text := Broken(Encoded(s), 4 * quanta);
      && Decoded(text) == s[..if |s| < 3 * quanta then |s| else 3 * quanta]
      && |Decoded(text)| <= DecodedSize(|text|)
  {
    Sizes(|s|, quanta);
    if |s| <= 3 * quanta {
      DecodeOfEncode(s);
      BrokenShort(Encoded(s), 4 * quanta);
      assert s == s[..|s|];
    } else {
      var a, b := s[..3 * quanta], s[3 * quanta..];
      assert s == a + b;
      FirstLine(a, b, 4 * quanta);
      DecodedFits(|a|, quanta, |Broken(Encoded(s), 4 * quanta)|);
    }
  }

  lemma BrokenShort(s: string, distance: nat)
    requires |s| <= distance && distance >= 1
    ensures Broken(s, distance) == s
  {
  }

  lemma DecodedFits(a: nat, quanta: nat, len: nat)
    requires a == 3 * quanta && len >= 4 * quanta
    ensures a <= DecodedSize(len)
  {
  }
}

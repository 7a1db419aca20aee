/** The base64 of PublicKey pinned down: its alphabet, and which spellings of a key are in normal form already. */
module KeySpelling {
  import opened Prelude
  import opened PublicKey

  const UPPER: string := "ABCDEFGHIJKLMNOPQRSTUVWXYZ"
  const LOWER: string := "abcdefghijklmnopqrstuvwxyz"
  const DIGITS: string := "0123456789"

  /** The alphabet of section 4 of RFC 4648. */
  const ALPHABET: string := UPPER + LOWER + DIGITS + "+/"

  lemma UpperIs(v: nat)
    requires v < 26
    ensures |UPPER| == 26 && UPPER[v] == 'A' + v as char
  {
  }

  lemma LowerIs(v: nat)
    requires v < 26
    ensures |LOWER| == 26 && LOWER[v] == 'a' + v as char
  {
  }

  lemma DigitIs(v: nat)
    requires v < 10
    ensures |DIGITS| == 10 && DIGITS[v] == '0' + v as char
  {
  }

  lemma LettersAreTheAlphabet(v: Sextet)
    ensures |ALPHABET| == 64 && Letter(v) == ALPHABET[v]
  {
    UpperIs(if v < 26 then v else 0);
    LowerIs(if 26 <= v < 52 then v - 26 else 0);
    DigitIs(if 52 <= v < 62 then v - 52 else 0);
  }

  lemma ValueExactly(c: char, v: Sextet)
    ensures Value(c) == Some(v) <==> Letter(v) == c
  {
  }

  // ---------------------------------------------------------------- encoding inverts decoding

  /** The bits of the last letter that no byte uses are zero. */
  predicate ZeroTail(s: string) {
    if |s| < 4 then true
    else if |s| > 4 then ZeroTail(s[4..])
    else if s[2] == '=' then Value(s[1]).Some? && Value(s[1]).value % 16 == 0
    else if s[3] == '=' then Value(s[2]).Some? && Value(s[2]).value % 4 == 0
    else true
  }

  lemma SextetsOfBytes(s0: Sextet, s1: Sextet, s2: Sextet, s3: Sextet)
    ensures First(Byte0(s0, s1)) == s0 && Second(Byte0(s0, s1), Byte1(s1, s2)) == s1
    ensures Third(Byte1(s1, s2), Byte2(s2, s3)) == s2 && Fourth(Byte2(s2, s3)) == s3
    ensures s1 % 16 == 0 ==> Second(Byte0(s0, s1), 0) == s1
    ensures s2 % 4 == 0 ==> Third(Byte1(s1, s2), 0) == s2
  {
  }

  lemma FullQuantumKept(s0: Sextet, s1: Sextet, s2: Sextet, s3: Sextet, rest: seq<Byte>)
    ensures Encode([Byte0(s0, s1), Byte1(s1, s2), Byte2(s2, s3)] + rest) ==
            [Letter(s0), Letter(s1), Letter(s2), Letter(s3)] + Encode(rest)
  {
    var b := [Byte0(s0, s1), Byte1(s1, s2), Byte2(s2, s3)] + rest;
    SextetsOfBytes(s0, s1, s2, s3);
    assert b[3..] == rest && b[0] == Byte0(s0, s1) && b[1] == Byte1(s1, s2) && b[2] == Byte2(s2, s3);
  }

  lemma OneByteKept(s0: Sextet, s1: Sextet)
    requires s1 % 16 == 0
    ensures Encode([Byte0(s0, s1)]) == [Letter(s0), Letter(s1), '=', '=']
  {
    SextetsOfBytes(s0, s1, 0, 0);
  }

  lemma TwoBytesKept(s0: Sextet, s1: Sextet, s2: Sextet)
    requires s2 % 4 == 0
    ensures Encode([Byte0(s0, s1), Byte1(s1, s2)]) == [Letter(s0), Letter(s1), Letter(s2), '=']
  {
    SextetsOfBytes(s0, s1, s2, 0);
  }

  /** `s` decodes, and what it decodes to encodes to `s`. */
  ghost predicate Inverts(s: string) {
    DecodeQuanta(s).Some? && Encode(DecodeQuanta(s).value) == s
  }

  lemma FullQuantumInverts(s0: Sextet, s1: Sextet, s2: Sextet, s3: Sextet, text: string)
    requires Inverts(text)
    ensures Inverts([Letter(s0), Letter(s1), Letter(s2), Letter(s3)] + text)
  {
    var rest := DecodeQuanta(text).value;
    DecodeFullQuantum(s0, s1, s2, s3, text, rest);
    FullQuantumKept(s0, s1, s2, s3, rest);
  }

  lemma OneByteInverts(s0: Sextet, s1: Sextet)
    requires s1 % 16 == 0
    ensures Inverts([Letter(s0), Letter(s1), '=', '='])
  {
    DecodeLastQuantum(s0, s1, 0);
    OneByteKept(s0, s1);
  }

  lemma TwoBytesInvert(s0: Sextet, s1: Sextet, s2: Sextet)
    requires s2 % 4 == 0
    ensures Inverts([Letter(s0), Letter(s1), Letter(s2), '='])
  {
    DecodeLastQuantum(s0, s1, s2);
    TwoBytesKept(s0, s1, s2);
  }

  /** What decodable text looks like at its front. */
  lemma Front(s: string)
    requires |s| >= 4 && DecodeQuanta(s).Some?
    ensures Value(s[0]).Some? && Value(s[1]).Some?
    ensures Value(s[3]).Some? ==> Value(s[2]).Some? && DecodeQuanta(s[4..]).Some? && s[2] != '=' && s[3] != '='
    ensures Value(s[3]).None? ==> |s| == 4 && s[3] == '=' && (Value(s[2]).None? ==> s[2] == '=')
  {
  }

  lemma LetterBack(c: char)
    requires Value(c).Some?
    ensures Letter(Value(c).value) == c && c != '='
  {
    ValueExactly(c, Value(c).value);
  }

  lemma FullCase(s: string)
    requires |s| >= 4 && Value(s[0]).Some? && Value(s[1]).Some? && Value(s[2]).Some? && Value(s[3]).Some?
    requires Inverts(s[4..])
    ensures Inverts(s)
  {
    LetterBack(s[0]);
    LetterBack(s[1]);
    LetterBack(s[2]);
    LetterBack(s[3]);
    FullQuantumInverts(Value(s[0]).value, Value(s[1]).value, Value(s[2]).value, Value(s[3]).value, s[4..]);
    assert s == [s[0], s[1], s[2], s[3]] + s[4..];
  }

  lemma LastCase(s: string)
    requires |s| == 4 && s[3] == '=' && Value(s[0]).Some? && Value(s[1]).Some? && ZeroTail(s)
    requires Value(s[2]).Some? || s[2] == '='
    ensures Inverts(s)
  {
    LetterBack(s[0]);
    LetterBack(s[1]);
    if s[2] == '=' {
      OneByteInverts(Value(s[0]).value, Value(s[1]).value);
      assert s == [s[0], s[1], '=', '='];
    } else {
      LetterBack(s[2]);
      TwoBytesInvert(Value(s[0]).value, Value(s[1]).value, Value(s[2]).value);
      assert s == [s[0], s[1], s[2], '='];
    }
  }

  /** Encoding inverts decoding for every text without line breaks and with a zero tail. */
  lemma {:induction false} EncodeInvertsDecode(s: string)
    requires DecodeQuanta(s).Some? && ZeroTail(s)
    ensures Inverts(s)
  {
    if |s| >= 4 {
      Front(s);
      if Value(s[3]).Some? {
        EncodeInvertsDecode(s[4..]);
        FullCase(s);
      } else {
        LastCase(s);
      }
    }
  }

  lemma {:induction false} EncodedHasZeroTail(b: seq<Byte>)
    ensures ZeroTail(Encode(b))
  {
    if |b| == 1 {
      ValueOfLetter(Second(b[0], 0));
    } else if |b| == 2 {
      ValueOfLetter(Third(b[1], 0));
    } else if |b| >= 3 {
      EncodedHasZeroTail(b[3..]);
      FullQuantumTail(b);
    }
  }

  lemma FullQuantumTail(b: seq<Byte>)
    requires |b| >= 3 && ZeroTail(Encode(b[3..]))
    ensures ZeroTail(Encode(b))
  {
    LettersTail(First(b[0]), Second(b[0], b[1]), Third(b[1], b[2]), Fourth(b[2]), Encode(b[3..]));
  }

  lemma LettersTail(s0: Sextet, s1: Sextet, s2: Sextet, s3: Sextet, text: string)
    requires ZeroTail(text)
    ensures ZeroTail([Letter(s0), Letter(s1), Letter(s2), Letter(s3)] + text)
  {
    var s := [Letter(s0), Letter(s1), Letter(s2), Letter(s3)] + text;
    ValueOfLetter(s2);
    ValueOfLetter(s3);
    assert s[4..] == text && s[2] == Letter(s2) && s[3] == Letter(s3);
  }

  ghost predicate NoLineBreaks(s: string) {
    forall c :: c in s ==> c != '\n' && c != '\r'
  }

  /** An accepted spelling is its own normal form exactly when it has no space around it, no line breaks in it, and zero
      trailing bits. */
  lemma NormalAlreadyExactly(x: string)
    requires Normalize(x).Ok?
    ensures Normalize(x) == Ok(x) <==> TrimSpace(x) == x && NoLineBreaks(x) && ZeroTail(x)
  {
    var key := Decode(TrimSpace(x)).value;
    if TrimSpace(x) == x && NoLineBreaks(x) && ZeroTail(x) {
      CleanTextKeepsItself(x);
      EncodeInvertsDecode(x);
    }
    if Encode(key) == x {
      EncodedIsClean(key);
      EncodedHasZeroTail(key);
      assert x[0] in x && x[|x| - 1] in x;
    }
  }
}

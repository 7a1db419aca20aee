/** normalizeWireGuardPublicKey (cmd/server/wireguard_routes.go): one canonical spelling per 32-byte key.
    Base64 is the standard alphabet with padding of section 4 of RFC 4648, decoded as Go's StdEncoding does:
    line breaks are skipped and unused trailing bits are ignored. */
module PublicKey {
  import opened Prelude

  type Byte = b: int | 0 <= b < 256
  type Sextet = b: int | 0 <= b < 64

  function Letter(v: Sextet): char {
    if v < 26 then 'A' + v as char
    else if v < 52 then 'a' + (v - 26) as char
    else if v < 62 then '0' + (v - 52) as char
    else if v == 62 then '+' else '/'
  }

  function Value(c: char): Option<Sextet> {
    if 'A' <= c <= 'Z' then Some((c - 'A') as int)
    else if 'a' <= c <= 'z' then Some((c - 'a') as int + 26)
    else if '0' <= c <= '9' then Some((c - '0') as int + 52)
    else if c == '+' then Some(62) else if c == '/' then Some(63) else None
  }

  function First(b0: Byte): Sextet { b0 / 4 }
  function Second(b0: Byte, b1: Byte): Sextet { b0 % 4 * 16 + b1 / 16 }
  function Third(b1: Byte, b2: Byte): Sextet { b1 % 16 * 4 + b2 / 64 }
  function Fourth(b2: Byte): Sextet { b2 % 64 }

  function Byte0(s0: Sextet, s1: Sextet): Byte { s0 * 4 + s1 / 16 }
  function Byte1(s1: Sextet, s2: Sextet): Byte { s1 % 16 * 16 + s2 / 4 }
  function Byte2(s2: Sextet, s3: Sextet): Byte { s2 % 4 * 64 + s3 }

  function Quantum(b0: Byte, b1: Byte, b2: Byte): string {
    [Letter(First(b0)), Letter(Second(b0, b1)), Letter(Third(b1, b2)), Letter(Fourth(b2))]
  }

  function Encode(b: seq<Byte>): string {
    if |b| == 0 then ""
    else if |b| == 1 then [Letter(First(b[0])), Letter(Second(b[0], 0)), '=', '=']
    else if |b| == 2 then [Letter(First(b[0])), Letter(Second(b[0], b[1])), Letter(Third(b[1], 0)), '=']
    else Quantum(b[0], b[1], b[2]) + Encode(b[3..])
  }

  function WithoutLineBreaks(s: string): string {
    if s == "" then ""
    else if s[0] == '\n' || s[0] == '\r' then WithoutLineBreaks(s[1..])
    else [s[0]] + WithoutLineBreaks(s[1..])
  }

  /** Decode text free of line breaks, four letters at a time. */
  function DecodeQuanta(s: string): Option<seq<Byte>> {
    if s == "" then Some([])
    else if |s| < 4 then None
    else
      match (Value(s[0]), Value(s[1]), Value(s[2]), Value(s[3]))
      case (Some(s0), Some(s1), Some(s2), Some(s3)) =>
        (match DecodeQuanta(s[4..])
         case Some(rest) => Some([Byte0(s0, s1), Byte1(s1, s2), Byte2(s2, s3)] + rest)
         case None => None)
      case (Some(s0), Some(s1), Some(s2), None) =>
        if s[3] == '=' && |s| == 4 then Some([Byte0(s0, s1), Byte1(s1, s2)]) else None
      case (Some(s0), Some(s1), None, None) =>
        if s[2] == '=' && s[3] == '=' && |s| == 4 then Some([Byte0(s0, s1)]) else None
      case _ => None
  }

  function Decode(s: string): Option<seq<Byte>> {
    DecodeQuanta(WithoutLineBreaks(s))
  }

  function Normalize(publicKey: string): Result<string> {
    var trimmed := TrimSpace(publicKey);
    if trimmed == "" then Err("public_key is required")
    else match Decode(trimmed)
      case None => Err("public_key must be valid base64")
      case Some(key) =>
        if |key| != 32 then Err("public_key must decode to 32 bytes") else Ok(Encode(key))
  }

  /** The 32 bytes an accepted spelling stands for. */
  ghost predicate Spells(text: string, key: seq<Byte>) {
    |key| == 32 && Decode(TrimSpace(text)) == Some(key)
  }

  // ---------------------------------------------------------------- round trip

  lemma ValueOfLetter(v: Sextet)
    ensures Value(Letter(v)) == Some(v) && Letter(v) != '\n' && Letter(v) != '\r' && !IsSpace(Letter(v))
  {
  }

  lemma BytesOfSextets(b0: Byte, b1: Byte, b2: Byte)
    ensures Byte0(First(b0), Second(b0, b1)) == b0
    ensures Byte1(Second(b0, b1), Third(b1, b2)) == b1
    ensures Byte2(Third(b1, b2), Fourth(b2)) == b2
  {
  }

  lemma {:induction false} EncodedIsClean(b: seq<Byte>)
    ensures forall c :: c in Encode(b) ==> !IsSpace(c) && c != '\n' && c != '\r'
    ensures b != [] ==> Encode(b) != ""
  {
    if |b| > 0 {
      forall v: Sextet ensures !IsSpace(Letter(v)) { ValueOfLetter(v); }
      if |b| >= 3 {
        EncodedIsClean(b[3..]);
      }
    }
  }

  lemma DecodeFullQuantum(s0: Sextet, s1: Sextet, s2: Sextet, s3: Sextet, text: string, rest: seq<Byte>)
    requires DecodeQuanta(text) == Some(rest)
    ensures DecodeQuanta([Letter(s0), Letter(s1), Letter(s2), Letter(s3)] + text) ==
            Some([Byte0(s0, s1), Byte1(s1, s2), Byte2(s2, s3)] + rest)
  {
    var s := [Letter(s0), Letter(s1), Letter(s2), Letter(s3)] + text;
    ValueOfLetter(s0);
    ValueOfLetter(s1);
    ValueOfLetter(s2);
    ValueOfLetter(s3);
    assert s[4..] == text;
  }

  lemma DecodeLastQuantum(s0: Sextet, s1: Sextet, s2: Sextet)
    ensures DecodeQuanta([Letter(s0), Letter(s1), '=', '=']) == Some([Byte0(s0, s1)])
    ensures DecodeQuanta([Letter(s0), Letter(s1), Letter(s2), '=']) == Some([Byte0(s0, s1), Byte1(s1, s2)])
  {
    ValueOfLetter(s0);
    ValueOfLetter(s1);
    ValueOfLetter(s2);
  }

  lemma QuantumRoundTrip(b0: Byte, b1: Byte, b2: Byte, text: string, rest: seq<Byte>)
    requires DecodeQuanta(text) == Some(rest)
    ensures DecodeQuanta(Quantum(b0, b1, b2) + text) == Some([b0, b1, b2] + rest)
  {
    DecodeFullQuantum(First(b0), Second(b0, b1), Third(b1, b2), Fourth(b2), text, rest);
    BytesOfSextets(b0, b1, b2);
  }

  lemma OneByteRoundTrip(b0: Byte)
    ensures RoundTrips([b0])
  {
    DecodeLastQuantum(First(b0), Second(b0, 0), 0);
    BytesOfSextets(b0, 0, 0);
  }

  lemma TwoBytesRoundTrip(b0: Byte, b1: Byte)
    ensures RoundTrips([b0, b1])
  {
    DecodeLastQuantum(First(b0), Second(b0, b1), Third(b1, 0));
    BytesOfSextets(b0, b1, 0);
  }

  ghost predicate RoundTrips(b: seq<Byte>) {
    DecodeQuanta(Encode(b)) == Some(b)
  }

  lemma LongRoundTrip(b0: Byte, b1: Byte, b2: Byte, tail: seq<Byte>)
    requires RoundTrips(tail)
    ensures RoundTrips([b0, b1, b2] + tail)
  {
    QuantumRoundTrip(b0, b1, b2, Encode(tail), tail);
    assert ([b0, b1, b2] + tail)[3..] == tail;
    assert Encode([b0, b1, b2] + tail) == Quantum(b0, b1, b2) + Encode(tail);
  }

  lemma {:induction false} AllRoundTrip(b: seq<Byte>)
    ensures RoundTrips(b)
  {
    if |b| == 1 {
      OneByteRoundTrip(b[0]);
      assert b == [b[0]];
    } else if |b| == 2 {
      TwoBytesRoundTrip(b[0], b[1]);
      assert b == [b[0], b[1]];
    } else if |b| >= 3 {
      AllRoundTrip(b[3..]);
      LongRoundTrip(b[0], b[1], b[2], b[3..]);
      assert b == [b[0], b[1], b[2]] + b[3..];
    }
  }

  lemma {:induction false} CleanTextKeepsItself(s: string)
    requires forall c :: c in s ==> c != '\n' && c != '\r'
    ensures WithoutLineBreaks(s) == s
  {
    if s != "" {
      assert s[0] in s && forall c :: c in s[1..] ==> c in s;
      CleanTextKeepsItself(s[1..]);
      assert s == [s[0]] + s[1..];
    }
  }

  /** Decoding inverts encoding for every byte string. */
  lemma DecodeInvertsEncode(b: seq<Byte>)
    ensures Decode(Encode(b)) == Some(b)
  {
    EncodedIsClean(b);
    CleanTextKeepsItself(Encode(b));
    AllRoundTrip(b);
  }

  /** Normalisation accepts exactly the spellings of 32-byte keys; two accepted spellings normalise alike
      exactly when they spell the same key; and the normal form is an accepted spelling of it that
      normalises to itself. */
  lemma NormalFormIsCanonical(x: string, y: string)
    ensures Normalize(x).Ok? <==> exists key :: Spells(x, key)
    ensures Normalize(x).Ok? && Normalize(y).Ok? ==>
              (Normalize(x) == Normalize(y) <==> Decode(TrimSpace(x)) == Decode(TrimSpace(y)))
    ensures Normalize(x).Ok? ==>
              && Normalize(Normalize(x).value) == Normalize(x)
              && Decode(TrimSpace(Normalize(x).value)) == Decode(TrimSpace(x))
  {
    assert WithoutLineBreaks("") == "" && Decode("") == Some([]);
    if Normalize(x).Ok? {
      var key := Decode(TrimSpace(x)).value;
      assert Spells(x, key);
      DecodeInvertsEncode(key);
      EncodedIsClean(key);
      var c := Encode(key);
      assert c[0] in c && c[|c| - 1] in c;
      assert TrimSpace(c) == c;
      if Normalize(y).Ok? {
        DecodeInvertsEncode(Decode(TrimSpace(y)).value);
      }
    }
  }

  lemma NormalFormIsNotBlank(x: string)
    requires Normalize(x).Ok?
    ensures TrimSpace(Normalize(x).value) != ""
  {
    NormalFormIsCanonical(x, x);
  }
}

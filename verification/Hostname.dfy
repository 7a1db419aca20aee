/** generateHostname (pkg/handlers/metadata.go): a short name followed by the NID printed with fmt's `%0*d`.
    A string is the sequence of its bytes here, one character each, since Go slices and measures names by bytes. */
module Hostname {

  function Digit(d: nat): char
    requires d < 10
  {
    '0' + d as char
  }

  function Decimal(n: nat): (s: string)
    ensures s != ""
  {
    if n < 10 then [Digit(n)] else Decimal(n / 10) + [Digit(n % 10)]
  }

  function Repeat(c: char, k: int): (s: string)
    ensures |s| == if k > 0 then k else 0
  {
    seq(if k > 0 then k else 0, _ => c)
  }

  /** fmt accepts widths up to a million either way and prints this marker otherwise. */
  const BAD_WIDTH := "%!(BADWIDTH)"

  predicate WidthOk(width: int) {
    -1_000_000 <= width <= 1_000_000
  }

  /** Sign, zeros, digits. */
  function Signed(nid: int, zeros: int): string {
    if nid < 0 then "-" + (Repeat('0', zeros) + Decimal(-nid)) else Repeat('0', zeros) + Decimal(nid)
  }

  function Printed(nid: int): string {
    Signed(nid, 0)
  }

  /** `%0*d`: zeros go between sign and digits; a negative width pads with blanks on the right. */
  function ZeroPadded(width: int, nid: int): string {
    if !WidthOk(width) then BAD_WIDTH + Printed(nid)
    else if width < 0 then Printed(nid) + Repeat(' ', -width - |Printed(nid)|)
    else Signed(nid, width - |Printed(nid)|)
  }

  function Prefix(clusterName: string, shortName: string): string {
    if shortName != "" then shortName else if |clusterName| >= 2 then clusterName[..2] else clusterName
  }

  function Width(nidLength: int): int {
    if nidLength == 0 then 4 else nidLength
  }

  function Generate(clusterName: string, shortName: string, nidLength: int, nid: int): string {
    Prefix(clusterName, shortName) + ZeroPadded(Width(nidLength), nid)
  }

  // ---------------------------------------------------------------- reading it back

  function ParseDigits(s: string): int {
    if s == "" then 0 else 10 * ParseDigits(s[..|s| - 1]) + (s[|s| - 1] as int - '0' as int)
  }

  function ParseSigned(s: string): int {
    if s != "" && s[0] == '-' then -ParseDigits(s[1..]) else ParseDigits(s)
  }

  function DropBlanks(s: string): string {
    if s != "" && s[|s| - 1] == ' ' then DropBlanks(s[..|s| - 1]) else s
  }

  /** The NID in the part of a hostname after the prefix. */
  function ReadBack(width: int, suffix: string): int {
    if !WidthOk(width) then (if |suffix| >= |BAD_WIDTH| then ParseSigned(suffix[|BAD_WIDTH|..]) else 0)
    else ParseSigned(DropBlanks(suffix))
  }

  lemma {:induction false} DecimalIsDigits(n: nat)
    ensures forall c :: c in Decimal(n) ==> '0' <= c <= '9'
  {
    if n >= 10 {
      DecimalIsDigits(n / 10);
    }
  }

  lemma {:induction false} ParseDecimal(n: nat)
    ensures ParseDigits(Decimal(n)) == n
  {
    if n >= 10 {
      ParseDecimal(n / 10);
      var s := Decimal(n);
      assert s[..|s| - 1] == Decimal(n / 10) && s[|s| - 1] == Digit(n % 10);
    } else {
      assert [Digit(n)][..0] == "";
    }
  }

  lemma {:induction false} LeadingZeros(k: int, s: string)
    ensures ParseDigits(Repeat('0', k) + s) == ParseDigits(s)
    decreases |s|, k
  {
    var t := Repeat('0', k) + s;
    if s != "" {
      assert t[..|t| - 1] == Repeat('0', k) + s[..|s| - 1];
      LeadingZeros(k, s[..|s| - 1]);
    } else if k > 0 {
      assert t[..|t| - 1] == Repeat('0', k - 1) + s;
      LeadingZeros(k - 1, s);
    } else {
      assert t == s;
    }
  }

  lemma {:induction false} TrailingBlanks(s: string, k: int)
    requires s != "" && s[|s| - 1] != ' '
    ensures DropBlanks(s + Repeat(' ', k)) == s
    decreases k
  {
    var t := s + Repeat(' ', k);
    if k > 0 {
      assert t[..|t| - 1] == s + Repeat(' ', k - 1);
      TrailingBlanks(s, k - 1);
    } else {
      assert t == s;
    }
  }

  lemma SignedReadsBack(nid: int, zeros: int)
    ensures Signed(nid, zeros) != "" && Signed(nid, zeros)[|Signed(nid, zeros)| - 1] != ' '
    ensures ParseSigned(Signed(nid, zeros)) == nid
  {
    var n: nat := if nid < 0 then -nid else nid;
    var body := Repeat('0', zeros) + Decimal(n);
    DecimalIsDigits(n);
    LeadingZeros(zeros, Decimal(n));
    ParseDecimal(n);
    assert body[|body| - 1] == Decimal(n)[|Decimal(n)| - 1];
    if nid < 0 {
      assert Signed(nid, zeros)[1..] == body;
    } else {
      assert body[0] == '0' || body[0] in Decimal(n);
    }
  }

  lemma NothingToDrop(s: string)
    requires s != "" && s[|s| - 1] != ' '
    ensures DropBlanks(s) == s
  {
  }

  /** The suffix of a hostname gives the NID back, for every width and every NID. */
  lemma SuffixReadsBack(width: int, nid: int)
    ensures ReadBack(width, ZeroPadded(width, nid)) == nid
  {
    if !WidthOk(width) {
      SignedReadsBack(nid, 0);
      assert (BAD_WIDTH + Printed(nid))[|BAD_WIDTH|..] == Printed(nid);
    } else if width < 0 {
      SignedReadsBack(nid, 0);
      TrailingBlanks(Printed(nid), -width - |Printed(nid)|);
    } else {
      SignedReadsBack(nid, width - |Printed(nid)|);
      NothingToDrop(Signed(nid, width - |Printed(nid)|));
    }
  }

  /** For fixed cluster settings, whatever they are, hostnames are injective in the NID; and for a non-negative
      width the length is the prefix plus the larger of the pad width and the printed width. */
  lemma HostnamesAreInjective(clusterName: string, shortName: string, nidLength: int, nid1: int, nid2: int)
    ensures Generate(clusterName, shortName, nidLength, nid1) == Generate(clusterName, shortName, nidLength, nid2)
            ==> nid1 == nid2
    ensures 0 <= nidLength <= 1_000_000 ==>
              |Generate(clusterName, shortName, nidLength, nid1)| == |Prefix(clusterName, shortName)| +
                (if Width(nidLength) > |Printed(nid1)| then Width(nidLength) else |Printed(nid1)|)
  {
    var p, w := Prefix(clusterName, shortName), Width(nidLength);
    SuffixReadsBack(w, nid1);
    SuffixReadsBack(w, nid2);
    assert (p + ZeroPadded(w, nid1))[|p|..] == ZeroPadded(w, nid1);
    assert (p + ZeroPadded(w, nid2))[|p|..] == ZeroPadded(w, nid2);
  }

  /** The hostname starts with the short name, or without one with the first two bytes of the cluster's. */
  lemma HostnameStartsWithName(clusterName: string, shortName: string, nidLength: int, nid: int)
    ensures var h := Generate(clusterName, shortName, nidLength, nid);
            if shortName != "" then shortName <= h
            else clusterName[..if |clusterName| > 2 then 2 else |clusterName|] <= h
  {
    if shortName == "" && |clusterName| < 2 {
      assert clusterName[..|clusterName|] == clusterName;
    }
  }

  /** A non-negative NID that is narrower than the width is padded with zeros in front. */
  lemma PaddedWithZeros(width: int, nid: nat)
    requires |Decimal(nid)| <= width <= 1_000_000
    ensures |ZeroPadded(width, nid)| == width && Decimal(nid) == ZeroPadded(width, nid)[width - |Decimal(nid)|..]
    ensures forall i :: 0 <= i < width - |Decimal(nid)| ==> ZeroPadded(width, nid)[i] == '0'
  {
    assert Printed(nid) == Decimal(nid);
  }

  function Pow10(k: nat): nat {
    if k == 0 then 1 else 10 * Pow10(k - 1)
  }

  lemma {:induction false} DecimalWidth(n: nat, k: nat)
    requires k >= 1 && n < Pow10(k)
    ensures |Decimal(n)| <= k
  {
    if n >= 10 {
      assert Pow10(1) == 10;
      DecimalWidth(n / 10, k - 1);
    }
  }

  lemma DefaultSuffix(nid: nat)
    requires nid < 10_000
    ensures |Decimal(nid)| <= 4 && ZeroPadded(4, nid) == Repeat('0', 4 - |Decimal(nid)|) + Decimal(nid)
  {
    assert Pow10(1) == 10 && Pow10(2) == 100 && Pow10(3) == 1000 && Pow10(4) == 10_000;
    DecimalWidth(nid, 4);
  }

  lemma DefaultSuffixReadsBack(nid: nat)
    requires nid < 10_000
    ensures |ZeroPadded(4, nid)| == 4 && ParseDigits(ZeroPadded(4, nid)) == nid
  {
    DefaultSuffix(nid);
    LeadingZeros(4 - |Decimal(nid)|, Decimal(nid));
    ParseDecimal(nid);
  }

  lemma DefaultSuffixIsDigits(nid: nat)
    requires nid < 10_000
    ensures forall c :: c in ZeroPadded(4, nid) ==> '0' <= c <= '9'
  {
    DefaultSuffix(nid);
    DecimalIsDigits(nid);
  }

  /** With the defaults, a NID below ten thousand gives the first two bytes of the cluster and four digits. */
  lemma DefaultHostname(clusterName: string, nid: nat)
    requires |clusterName| >= 2 && nid < 10_000
    ensures var h := Generate(clusterName, "", 0, nid);
            && |h| == 6 && h[..2] == clusterName[..2]
            && ParseDigits(h[2..]) == nid && forall c :: c in h[2..] ==> '0' <= c <= '9'
  {
    DefaultSuffixReadsBack(nid);
    DefaultSuffixIsDigits(nid);
    DefaultParts(clusterName, nid);
  }

  lemma DefaultParts(clusterName: string, nid: nat)
    requires |clusterName| >= 2
    ensures Generate(clusterName, "", 0, nid) == clusterName[..2] + ZeroPadded(4, nid)
  {
  }
}

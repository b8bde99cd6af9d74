/** The generated device id: 16 random bytes, masked and printed as a version 4 UUID. */
module DeviceId {
  import opened Wrappers

  type Bytes = b: seq<bv8> | |b| == 16 witness seq(16, _ => 0)

  function HexDigit(n: bv8): char {
    if n == 0 then '0' else if n == 1 then '1' else if n == 2 then '2' else if n == 3 then '3'
    else if n == 4 then '4' else if n == 5 then '5' else if n == 6 then '6' else if n == 7 then '7'
    else if n == 8 then '8' else if n == 9 then '9' else if n == 10 then 'a' else if n == 11 then 'b'
    else if n == 12 then 'c' else if n == 13 then 'd' else if n == 14 then 'e' else 'f'
  }

  function Unhex(c: char): Option<bv8> {
    if c == '0' then Some(0) else if c == '1' then Some(1) else if c == '2' then Some(2)
    else if c == '3' then Some(3) else if c == '4' then Some(4) else if c == '5' then Some(5)
    else if c == '6' then Some(6) else if c == '7' then Some(7) else if c == '8' then Some(8)
    else if c == '9' then Some(9) else if c == 'a' then Some(10) else if c == 'b' then Some(11)
    else if c == 'c' then Some(12) else if c == 'd' then Some(13) else if c == 'e' then Some(14)
    else if c == 'f' then Some(15)
    else None
  }

  lemma UnhexHexDigit(n: bv8)
    requires n < 16
    ensures Unhex(HexDigit(n)) == Some(n)
  {
  }

  lemma HexDigitsAre()
    ensures [HexDigit(0), HexDigit(1), HexDigit(2), HexDigit(3), HexDigit(4), HexDigit(5), HexDigit(6), HexDigit(7),
             HexDigit(8), HexDigit(9), HexDigit(10), HexDigit(11), HexDigit(12), HexDigit(13), HexDigit(14),
             HexDigit(15)] == "0123456789abcdef"
  {
  }

  /** Two lower-case hex digits per byte, as %x prints a byte slice. */
  function Hex(b: seq<bv8>): (s: string)
    ensures |s| == 2 * |b|
  {
    if b == [] then "" else [HexDigit(b[0] >> 4), HexDigit(b[0] & 0x0f)] + Hex(b[1..])
  }

  function ParseHex(s: string): Option<seq<bv8>> {
    if s == "" then Some([])
    else if |s| == 1 then None
    else
      match (Unhex(s[0]), Unhex(s[1]), ParseHex(s[2..]))
      case (Some(hi), Some(lo), Some(rest)) => Some([(hi << 4) | lo] + rest)
      case _ => None
  }

  lemma {:induction false} ParseHexOfHex(b: seq<bv8>)
    ensures ParseHex(Hex(b)) == Some(b)
  {
    if b == [] {
      assert Hex(b) == "";
    } else {
      var x := b[0];
      UnhexHexDigit(x >> 4);
      UnhexHexDigit(x & 0x0f);
      assert ((x >> 4) << 4) | (x & 0x0f) == x;
      ParseHexOfHex(b[1..]);
      var s := Hex(b);
      assert s[0] == HexDigit(x >> 4) && s[1] == HexDigit(x & 0x0f) && s[2..] == Hex(b[1..]);
      assert ParseHex(s) == Some([x] + b[1..]);
      assert b == [x] + b[1..];
    }
  }

  /** The version and variant fields set, all other bits kept. */
  function Masked(b: Bytes): Bytes {
    b[6 := (b[6] & 0x0f) | 0x40][8 := (b[8] & 0x3f) | 0x80]
  }

  /** The five dash-separated groups. */
  function Format(b: Bytes): string {
    Hex(b[..4]) + "-" + Hex(b[4..6]) + "-" + Hex(b[6..8]) + "-" + Hex(b[8..10]) + "-" + Hex(b[10..])
  }

  /** The text without the characters at the four dash positions. */
  function DropDashes(text: string): string
    requires |text| == 36
  {
    text[..8] + text[9..13] + text[14..18] + text[19..23] + text[24..]
  }

  method NewDeviceId(random: array<bv8>) returns (text: string)
    requires random.Length == 16
    modifies random
    ensures random[..] == Masked(old(random[..]))
    ensures text == Format(Masked(old(random[..])))
  {
    random[6] := (random[6] & 0x0f) | 0x40;
    random[8] := (random[8] & 0x3f) | 0x80;
    text := Format(random[..]);
  }

  lemma {:induction false} HexAppend(a: seq<bv8>, b: seq<bv8>)
    ensures Hex(a + b) == Hex(a) + Hex(b)
  {
    if a == [] {
      assert a + b == b;
    } else {
      assert (a + b)[1..] == a[1..] + b;
      HexAppend(a[1..], b);
    }
  }

  lemma HexGroups(b: Bytes)
    ensures Hex(b) == Hex(b[..4]) + Hex(b[4..6]) + Hex(b[6..8]) + Hex(b[8..10]) + Hex(b[10..])
  {
    assert b == b[..10] + b[10..] && b[..10] == b[..8] + b[8..10];
    assert b[..8] == b[..6] + b[6..8] && b[..6] == b[..4] + b[4..6];
    HexAppend(b[..10], b[10..]);
    HexAppend(b[..8], b[8..10]);
    HexAppend(b[..6], b[6..8]);
    HexAppend(b[..4], b[4..6]);
  }

  lemma DashesDrop(a: string, b: string, c: string, d: string, e: string)
    requires |a| == 8 && |b| == |c| == |d| == 4 && |e| == 12
    ensures var text := a + "-" + b + "-" + c + "-" + d + "-" + e;
            && |text| == 36 && DropDashes(text) == a + b + c + d + e
            && text[8] == text[13] == text[18] == text[23] == '-'
  {
    var text := a + "-" + b + "-" + c + "-" + d + "-" + e;
    assert text[..8] == a && text[9..13] == b && text[14..18] == c && text[19..23] == d && text[24..] == e;
  }

  lemma DashesDropToHex(b: Bytes)
    ensures |Format(b)| == 36 && DropDashes(Format(b)) == Hex(b)
    ensures Format(b)[8] == Format(b)[13] == Format(b)[18] == Format(b)[23] == '-'
  {
    HexGroups(b);
    DashesDrop(Hex(b[..4]), Hex(b[4..6]), Hex(b[6..8]), Hex(b[8..10]), Hex(b[10..]));
  }

  /** Where the character at a position of the text comes from. */
  function DigitAt(i: nat): nat {
    if i < 8 then i else if i < 13 then i - 1 else if i < 18 then i - 2 else if i < 23 then i - 3 else i - 4
  }

  lemma TextDigit(b: Bytes, i: nat)
    requires i < 36 && i != 8 && i != 13 && i != 18 && i != 23
    ensures |Format(b)| == 36 && DigitAt(i) < 32 && Format(b)[i] == Hex(b)[DigitAt(i)]
  {
    DashesDropToHex(b);
    assert Format(b)[i] == DropDashes(Format(b))[DigitAt(i)];
  }

  /** Version 4 and variant 10 in the UUID layout of section 5.4 of RFC 9562. */
  predicate IsVersion4(text: string) {
    && |text| == 36
    && text[8] == text[13] == text[18] == text[23] == '-'
    && text[14] == '4'
    && text[19] in {'8', '9', 'a', 'b'}
    && forall i :: 0 <= i < 36 && i != 8 && i != 13 && i != 18 && i != 23 ==> Unhex(text[i]).Some?
  }

  lemma {:induction false} HexIsHex(b: seq<bv8>, i: nat)
    requires i < 2 * |b|
    ensures Unhex(Hex(b)[i]).Some?
    ensures Hex(b)[i] == if i % 2 == 0 then HexDigit(b[i / 2] >> 4) else HexDigit(b[i / 2] & 0x0f)
  {
    if i >= 2 {
      HexIsHex(b[1..], i - 2);
    }
  }

  lemma TextIsHex(b: Bytes)
    ensures |Format(b)| == 36
    ensures forall i :: 0 <= i < 36 && i != 8 && i != 13 && i != 18 && i != 23 ==> Unhex(Format(b)[i]).Some?
  {
    DashesDropToHex(b);
    forall i | 0 <= i < 36 && i != 8 && i != 13 && i != 18 && i != 23 ensures Unhex(Format(b)[i]).Some? {
      TextDigit(b, i);
      HexIsHex(b, DigitAt(i));
    }
  }

  lemma VersionAndVariant(b: Bytes)
    ensures var text := Format(Masked(b));
            |text| == 36 && text[14] == '4' && text[19] in {'8', '9', 'a', 'b'}
  {
    var m := Masked(b);
    TextDigit(m, 14);
    TextDigit(m, 19);
    HexIsHex(m, 12);
    HexIsHex(m, 16);
    MaskedDigits(b[6], b[8]);
  }

  /** Every id is a version 4 UUID whose digits read back as the masked bytes. */
  lemma DeviceIdIsVersion4(b: Bytes)
    ensures var text := Format(Masked(b));
            IsVersion4(text) && ParseHex(DropDashes(text)) == Some(Masked(b))
  {
    var m := Masked(b);
    DashesDropToHex(m);
    ParseHexOfHex(m);
    TextIsHex(m);
    VersionAndVariant(b);
  }

  lemma MaskedDigits(x: bv8, y: bv8)
    ensures HexDigit(((x & 0x0f) | 0x40) >> 4) == '4'
    ensures HexDigit(((y & 0x3f) | 0x80) >> 4) in {'8', '9', 'a', 'b'}
  {
  }

  /** The 122 bits that are not overwritten agree. */
  predicate SameRandomBits(a: Bytes, b: Bytes) {
    && (forall i :: 0 <= i < 16 && i != 6 && i != 8 ==> a[i] == b[i])
    && a[6] & 0x0f == b[6] & 0x0f
    && a[8] & 0x3f == b[8] & 0x3f
  }

  lemma MaskKeepsFreeBits(x: bv8, y: bv8)
    ensures (x & 0x0f) | 0x40 == (y & 0x0f) | 0x40 <==> x & 0x0f == y & 0x0f
    ensures (x & 0x3f) | 0x80 == (y & 0x3f) | 0x80 <==> x & 0x3f == y & 0x3f
  {
  }

  lemma MaskedAgreeIff(a: Bytes, b: Bytes)
    ensures Masked(a) == Masked(b) <==> SameRandomBits(a, b)
  {
    MaskKeepsFreeBits(a[6], b[6]);
    MaskKeepsFreeBits(a[8], b[8]);
    var x, y := Masked(a), Masked(b);
    assert forall i :: 0 <= i < 16 && i != 6 && i != 8 ==> x[i] == a[i] && y[i] == b[i];
    assert x[6] == (a[6] & 0x0f) | 0x40 && y[6] == (b[6] & 0x0f) | 0x40;
    assert x[8] == (a[8] & 0x3f) | 0x80 && y[8] == (b[8] & 0x3f) | 0x80;
  }

  /** Two inputs yield the same id exactly when they agree on the 122 free bits. */
  lemma SameIdIff(a: Bytes, b: Bytes)
    ensures Format(Masked(a)) == Format(Masked(b)) <==> SameRandomBits(a, b)
  {
    DeviceIdIsVersion4(a);
    DeviceIdIsVersion4(b);
    MaskedAgreeIff(a, b);
  }
}

/** The UUID version 7 codec (section 5.7 of RFC 9562): canonical text to bytes and back, and the order of
    the texts. Bytes are numbers; the code masks them as bits, and the specifications divide them by 16 and 64. */
module Uuid {
  type Byte = x: int | 0 <= x < 256
  type Nibble = x: int | 0 <= x < 16

  type Bytes = u: seq<Byte> | |u| == 16 witness seq(16, _ => 0)

  datatype Fault = InvalidLength | InvalidFormat | Required | InvalidVersion | InvalidVariant
  datatype Result = Ok(uuid: Bytes) | Err(fault: Fault)

  const HEX_DIGITS := "0123456789abcdef"

  predicate IsCanonicalHex(c: char) {
    '0' <= c <= '9' || 'a' <= c <= 'f'
  }

  function HexValue(c: char): Nibble
    requires IsCanonicalHex(c)
  {
    if c <= '9' then (c - '0') as int else 10 + (c - 'a') as int
  }

  lemma HexDigitsAreCanonical(n: Nibble)
    ensures IsCanonicalHex(HEX_DIGITS[n]) && HexValue(HEX_DIGITS[n]) == n
  {
    assert HEX_DIGITS == ['0', '1', '2', '3', '4', '5', '6', '7', '8', '9', 'a', 'b', 'c', 'd', 'e', 'f'];
  }

  lemma HexValueIsInverse(c: char)
    requires IsCanonicalHex(c)
    ensures HEX_DIGITS[HexValue(c)] == c
  {
    assert HEX_DIGITS == ['0', '1', '2', '3', '4', '5', '6', '7', '8', '9', 'a', 'b', 'c', 'd', 'e', 'f'];
  }

  lemma HexDigitsAreOrdered(m: Nibble, n: Nibble)
    requires m < n
    ensures HEX_DIGITS[m] < HEX_DIGITS[n]
  {
    assert HEX_DIGITS == ['0', '1', '2', '3', '4', '5', '6', '7', '8', '9', 'a', 'b', 'c', 'd', 'e', 'f'];
  }

  predicate IsDashPosition(i: int) {
    i == 8 || i == 13 || i == 18 || i == 23
  }

  /** How many of the four dash positions lie before position i. */
  function DashesBefore(i: int): nat {
    (if i > 8 then 1 else 0) + (if i > 13 then 1 else 0) + (if i > 18 then 1 else 0) + (if i > 23 then 1 else 0)
  }

  /** Where the text holds nibble k. */
  function TextPosition(k: nat): (i: nat)
    requires k < 32
    ensures i < 36 && !IsDashPosition(i) && i - DashesBefore(i) == k
  {
    if k < 8 then k else if k < 12 then k + 1 else if k < 16 then k + 2 else if k < 20 then k + 3 else k + 4
  }

  /** Nibble k of the sixteen bytes, high nibble first. */
  function NibbleAt(u: Bytes, k: nat): Nibble
    requires k < 32
  {
    if k % 2 == 0 then u[k / 2] / 16 else u[k / 2] % 16
  }

  // The masks and shifts that the code applies to a byte are quotients and remainders.

  lemma {:induction false} ByteBits(b: nat)
    requires b < 256
    ensures (b as bv8) as int == b
  {
    if b > 0 {
      ByteBits(b - 1);
      var bits := (b - 1) as bv8;
      assert (bits + 1) as int == b;
    }
  }

  lemma NibbleBits(b: bv8)
    ensures (b >> 4) as int == b as int / 16 && (b & 0x0f) as int == b as int % 16
  {
  }

  lemma VersionBits(b: bv8)
    ensures (b & 0xf0 == 0x70) <==> b as int / 16 == 7
    ensures ((b & 0x0f) | 0x70) as int == 0x70 + b as int % 16
  {
  }

  lemma VariantBits(b: bv8)
    ensures (b & 0xc0 == 0x80) <==> b as int / 64 == 2
    ensures ((b & 0x3f) | 0x80) as int == 0x80 + b as int % 64
  {
  }

  method HexDigits(b: Byte) returns (high: char, low: char)
    ensures high == HEX_DIGITS[b / 16] && low == HEX_DIGITS[b % 16]
  {
    var bits := b as bv8;
    ByteBits(b);
    NibbleBits(bits);
    high, low := HEX_DIGITS[(bits >> 4) as int], HEX_DIGITS[(bits & 0x0f) as int];
  }

  method HasVersion(b: Byte) returns (r: bool)
    ensures r <==> b / 16 == 7
  {
    var bits := b as bv8;
    ByteBits(b);
    VersionBits(bits);
    r := bits & 0xf0 == 0x70;
  }

  method HasVariant(b: Byte) returns (r: bool)
    ensures r <==> b / 64 == 2
  {
    var bits := b as bv8;
    ByteBits(b);
    VariantBits(bits);
    r := bits & 0xc0 == 0x80;
  }

  method WithVersion(b: Byte) returns (r: Byte)
    ensures r == 0x70 + b % 16
  {
    var bits := b as bv8;
    ByteBits(b);
    VersionBits(bits);
    r := ((bits & 0x0f) | 0x70) as int;
  }

  method WithVariant(b: Byte) returns (r: Byte)
    ensures r == 0x80 + b % 64
  {
    var bits := b as bv8;
    ByteBits(b);
    VariantBits(bits);
    r := ((bits & 0x3f) | 0x80) as int;
  }

  /** The canonical text: lower-case hexadecimal in groups of 8, 4, 4, 4 and 12. */
  predicate IsCanonical(t: string) {
    && |t| == 36
    && t[8] == '-' && t[13] == '-' && t[18] == '-' && t[23] == '-'
    && forall k :: 0 <= k < 32 ==> IsCanonicalHex(t[TextPosition(k)])
  }

  predicate Renders(t: string, u: Bytes) {
    && |t| == 36
    && t[8] == '-' && t[13] == '-' && t[18] == '-' && t[23] == '-'
    && forall k :: 0 <= k < 32 ==> t[TextPosition(k)] == HEX_DIGITS[NibbleAt(u, k)]
  }

  function ByteAt(t: string, i: nat): Byte
    requires IsCanonical(t) && i < 16
  {
    16 * HexValue(t[TextPosition(2 * i)]) + HexValue(t[TextPosition(2 * i + 1)])
  }

  function Decoded(t: string): Bytes
    requires IsCanonical(t)
  {
    seq(16, i requires 0 <= i < 16 => ByteAt(t, i))
  }

  predicate IsZero(u: Bytes) {
    forall i :: 0 <= i < 16 ==> u[i] == 0
  }

  predicate IsV7(u: Bytes) {
    u[6] / 16 == 7 && u[8] / 64 == 2
  }

  function Validated(u: Bytes): Result {
    if IsZero(u) then Err(Required)
    else if u[6] / 16 != 7 then Err(InvalidVersion)
    else if u[8] / 64 != 2 then Err(InvalidVariant)
    else Ok(u)
  }

  /** What parsing means: a canonical text whose bytes carry the version and variant. */
  function Parsed(t: string): Result {
    if |t| != 36 then Err(InvalidLength)
    else if !IsCanonical(t) then Err(InvalidFormat)
    else Validated(Decoded(t))
  }

  method Validate(u: Bytes) returns (r: Result)
    ensures r == Validated(u)
  {
    var i := 0;
    while i < 16 && u[i] == 0
      invariant 0 <= i <= 16 && forall k :: 0 <= k < i ==> u[k] == 0
    {
      i := i + 1;
    }
    if i == 16 { return Err(Required); }
    var hasVersion := HasVersion(u[6]);
    if !hasVersion { return Err(InvalidVersion); }
    var hasVariant := HasVariant(u[8]);
    if !hasVariant { return Err(InvalidVariant); }
    return Ok(u);
  }

  /** Copies every character that is not a dash into 32 cells, then decodes the cells. A dash in any other
      place leaves the last cell empty, which the decoder refuses, so no index ever leaves its bounds. */
  method ToBytes(t: string) returns (r: Result)
    ensures r == Parsed(t)
  {
    if |t| != 36 { return Err(InvalidLength); }
    if t[8] != '-' || t[13] != '-' || t[18] != '-' || t[23] != '-' { return Err(InvalidFormat); }
    var cells := new char[32](_ => '\0');
    var j := 0;
    for i := 0 to 36
      invariant 0 <= j <= i - DashesBefore(i)
      invariant j == i - DashesBefore(i) <==>
                forall k :: 0 <= k < 32 && TextPosition(k) < i ==> t[TextPosition(k)] != '-'
      invariant j == i - DashesBefore(i) ==> forall k :: 0 <= k < j ==> cells[k] == t[TextPosition(k)]
      invariant forall k :: j <= k < 32 ==> cells[k] == '\0'
      invariant forall k :: 0 <= k < 32 && TextPosition(k) < i && t[TextPosition(k)] != '-' ==>
                IsCanonicalHex(t[TextPosition(k)])
    {
      assert !IsDashPosition(i) ==> TextPosition(i - DashesBefore(i)) == i;
      if t[i] == '-' { continue; }
      if !IsCanonicalHex(t[i]) { return Err(InvalidFormat); }
      cells[j] := t[i];
      j := j + 1;
    }
    assert DashesBefore(36) == 4;
    if j < 32 {
      assert !IsCanonical(t);
      assert !IsCanonicalHex(cells[31]);
    }
    var decoded, ok := DecodeHex(cells[..]);
    if !ok { return Err(InvalidFormat); }
    assert decoded == Decoded(t);
    r := Validate(decoded);
  }

  /** `hex.DecodeString` on 32 characters. */
  method DecodeHex(cells: seq<char>) returns (u: Bytes, ok: bool)
    requires |cells| == 32
    ensures ok <==> forall k :: 0 <= k < 32 ==> IsCanonicalHex(cells[k])
    ensures ok ==> forall i :: 0 <= i < 16 ==> u[i] == 16 * HexValue(cells[2 * i]) + HexValue(cells[2 * i + 1])
  {
    var out: seq<Byte> := [];
    for i := 0 to 16
      invariant |out| == i
      invariant forall k :: 0 <= k < 2 * i ==> IsCanonicalHex(cells[k])
      invariant forall k :: 0 <= k < i ==> out[k] == 16 * HexValue(cells[2 * k]) + HexValue(cells[2 * k + 1])
    {
      if !IsCanonicalHex(cells[2 * i]) || !IsCanonicalHex(cells[2 * i + 1]) {
        return seq(16, _ => 0), false;
      }
      out := out + [16 * HexValue(cells[2 * i]) + HexValue(cells[2 * i + 1])];
    }
    return out, true;
  }

  // Writes two digits and returns the next offset.
  method WriteByte(dst: array<char>, off: nat, b: Byte) returns (next: nat)
    requires off + 2 <= dst.Length
    modifies dst
    ensures next == off + 2
    ensures dst[off] == HEX_DIGITS[b / 16] && dst[off + 1] == HEX_DIGITS[b % 16]
    ensures forall k :: 0 <= k < dst.Length && k != off && k != off + 1 ==> dst[k] == old(dst[k])
  {
    var high, low := HexDigits(b);
    dst[off] := high;
    dst[off + 1] := low;
    next := off + 2;
  }

  /** The text so far: the digits of the first n nibbles, and the dashes among them. */
  ghost predicate Prefix(dst: seq<char>, u: Bytes, n: nat, o: nat) {
    && |dst| == 36 && n <= 32
    && (forall k :: 0 <= k < n ==> dst[TextPosition(k)] == HEX_DIGITS[NibbleAt(u, k)])
    && (forall d :: IsDashPosition(d) && d < o ==> dst[d] == '-')
  }

  lemma PrefixGrows(before: seq<char>, after: seq<char>, u: Bytes, i: nat, o: nat)
    requires i < 16 && o == TextPosition(2 * i) && Prefix(before, u, 2 * i, o) && |after| == 36
    requires forall k :: 0 <= k < 36 && k != o && k != o + 1 ==> after[k] == before[k]
    requires after[o] == HEX_DIGITS[u[i] / 16] && after[o + 1] == HEX_DIGITS[u[i] % 16]
    ensures Prefix(after, u, 2 * i + 2, o + 2)
  {
    assert o + 1 == TextPosition(2 * i + 1);
    assert NibbleAt(u, 2 * i) == u[i] / 16 && NibbleAt(u, 2 * i + 1) == u[i] % 16;
    assert forall k :: 0 <= k < 2 * i ==> TextPosition(k) < o;
    assert !IsDashPosition(o) && !IsDashPosition(o + 1);
  }

  lemma OffsetOfByte(i: nat)
    requires i < 16
    ensures TextPosition(2 * i) == 2 * i + GapsBefore(i) + (if i == 4 || i == 6 || i == 8 || i == 10 then 1 else 0)
    ensures 2 * i + 2 + GapsBefore(i + 1) == TextPosition(2 * i) + 2
    ensures IsDashPosition(2 * i + GapsBefore(i)) <==> i == 4 || i == 6 || i == 8 || i == 10
  {
  }

  /** Writes the bytes two digits at a time at a running offset, with a dash after bytes 4, 6, 8 and 10. */
  method EncodeCanonical(u: Bytes) returns (t: string)
    ensures Renders(t, u)
  {
    var dst := new char[36](_ => '\0');
    var o := 0;
    for i := 0 to 16
      invariant o == 2 * i + GapsBefore(i) && Prefix(dst[..], u, 2 * i, o)
    {
      OffsetOfByte(i);
      if i == 4 || i == 6 || i == 8 || i == 10 {
        DashKeepsPrefix(dst[..], u, i, o);
        dst[o] := '-';
        o := o + 1;
      }
      ghost var before := dst[..];
      o := WriteByte(dst, o, u[i]);
      PrefixGrows(before, dst[..], u, i, o - 2);
    }
    t := dst[..];
    assert GapsBefore(16) == 4;
  }

  lemma DashKeepsPrefix(dst: seq<char>, u: Bytes, i: nat, o: nat)
    requires i < 16 && o == 2 * i + GapsBefore(i) && IsDashPosition(o) && Prefix(dst, u, 2 * i, o)
    ensures Prefix(dst[o := '-'], u, 2 * i, o + 1)
  {
  }

  function GapsBefore(i: nat): nat {
    (if i > 4 then 1 else 0) + (if i > 6 then 1 else 0) + (if i > 8 then 1 else 0) + (if i > 10 then 1 else 0)
  }

  /** Parsing undoes printing: every valid value is recovered from any text that renders it. */
  lemma ParseUndoesPrint(u: Bytes, t: string)
    requires Renders(t, u) && IsV7(u)
    ensures Parsed(t) == Ok(u)
  {
    forall k | 0 <= k < 32
      ensures IsCanonicalHex(t[TextPosition(k)]) && HexValue(t[TextPosition(k)]) == NibbleAt(u, k)
    {
      HexDigitsAreCanonical(NibbleAt(u, k));
    }
    forall i | 0 <= i < 16 ensures ByteAt(t, i) == u[i] {
      assert NibbleAt(u, 2 * i) == u[i] / 16 && NibbleAt(u, 2 * i + 1) == u[i] % 16;
    }
    assert Decoded(t) == u;
    assert u[6] != 0;
  }

  lemma NibblesOfByte(h: Nibble, l: Nibble)
    ensures (16 * h + l) / 16 == h && (16 * h + l) % 16 == l
  {
  }

  lemma DecodedNibble(t: string, k: nat)
    requires IsCanonical(t) && k < 32
    ensures NibbleAt(Decoded(t), k) == HexValue(t[TextPosition(k)])
  {
    var i := k / 2;
    assert Decoded(t)[i] == ByteAt(t, i);
    NibblesOfByte(HexValue(t[TextPosition(2 * i)]), HexValue(t[TextPosition(2 * i + 1)]));
  }

  /** Printing undoes parsing: an accepted text is the only rendering of its value. */
  lemma PrintUndoesParse(t: string, s: string)
    requires Parsed(t).Ok? && Renders(s, Parsed(t).uuid)
    ensures s == t
  {
    var u := Parsed(t).uuid;
    forall i | 0 <= i < 36 ensures s[i] == t[i] {
      if !IsDashPosition(i) {
        var k := i - DashesBefore(i);
        assert TextPosition(k) == i;
        DecodedNibble(t, k);
        HexValueIsInverse(t[i]);
      }
    }
  }

  /** Texts with a dash anywhere else, as well as upper-case digits, are refused. */
  lemma ExtraDashIsRefused(t: string, i: nat)
    requires |t| == 36 && i < 36 && !IsDashPosition(i) && !IsCanonicalHex(t[i])
    ensures Parsed(t) == Err(InvalidFormat)
  {
    assert TextPosition(i - DashesBefore(i)) == i;
  }

  // Creation.
  function Weight(i: nat): (w: nat)
    requires i < 6
    ensures w > 0 && (i > 0 ==> Weight(i - 1) == 256 * w)
  {
    if i == 5 then 1 else if i == 4 then 0x100 else if i == 3 then 0x1_0000
    else if i == 2 then 0x100_0000 else if i == 1 then 0x1_0000_0000 else 0x100_0000_0000
  }

  /** Byte i of the 48-bit big-endian timestamp: `byte(ms >> (40 - 8 * i))`. */
  function TimestampByte(ms: nat, i: nat): Byte
    requires i < 6
  {
    ms / Weight(i) % 256
  }

  /** `New` and `DeriveV7`: the timestamp, then ten random or derived bytes with the version and variant set. */
  method New(ms: nat, random: seq<Byte>) returns (u: Bytes)
    requires |random| == 10
    ensures IsV7(u)
    ensures forall i :: 0 <= i < 6 ==> u[i] == TimestampByte(ms, i)
    ensures u[6] % 16 == random[0] % 16 && u[7] == random[1] && u[8] % 64 == random[2] % 64
    ensures u[9..] == random[3..]
  {
    var a := new Byte[16](_ => 0);
    a[0] := TimestampByte(ms, 0);
    a[1] := TimestampByte(ms, 1);
    a[2] := TimestampByte(ms, 2);
    a[3] := TimestampByte(ms, 3);
    a[4] := TimestampByte(ms, 4);
    a[5] := TimestampByte(ms, 5);
    for i := 0 to 10
      invariant forall k :: 0 <= k < 6 ==> a[k] == TimestampByte(ms, k)
      invariant forall k :: 0 <= k < i ==> a[6 + k] == random[k]
    {
      a[6 + i] := random[i];
    }
    a[6] := WithVersion(a[6]);
    a[8] := WithVariant(a[8]);
    u := a[..];
  }

  predicate LexLess(s: string, t: string) {
    exists i :: 0 <= i < |s| && i < |t| && s[..i] == t[..i] && s[i] < t[i]
  }

  lemma DivideInSteps(m: nat, i: nat)
    requires 0 < i < 6
    ensures m / Weight(i - 1) == m / Weight(i) / 256
  {
    if i == 5 {
    } else if i == 4 {
      assert m / 0x1_0000 == m / 0x100 / 256;
    } else if i == 3 {
      assert m / 0x100_0000 == m / 0x1_0000 / 256;
    } else if i == 2 {
      assert m / 0x1_0000_0000 == m / 0x100_0000 / 256;
    } else {
      assert m / 0x100_0000_0000 == m / 0x1_0000_0000 / 256;
    }
  }

  // The first i + 1 bytes agree when the numbers they spell agree.
  lemma {:induction false} EqualPrefixes(m: nat, n: nat, i: nat)
    requires i < 6 && m / Weight(i) == n / Weight(i)
    ensures forall j :: 0 <= j <= i ==> TimestampByte(m, j) == TimestampByte(n, j)
  {
    if i > 0 {
      DivideInSteps(m, i);
      DivideInSteps(n, i);
      EqualPrefixes(m, n, i - 1);
    }
  }

  lemma {:induction false} FirstDifferingTimestampByte(m: nat, n: nat, i: nat) returns (first: nat)
    requires i < 6 && m < 0x1_0000_0000_0000 && n < 0x1_0000_0000_0000
    requires m / Weight(i) < n / Weight(i)
    ensures first < 6 && TimestampByte(m, first) < TimestampByte(n, first)
    ensures forall j :: 0 <= j < first ==> TimestampByte(m, j) == TimestampByte(n, j)
  {
    if i == 0 { return 0; }
    DivideInSteps(m, i);
    DivideInSteps(n, i);
    if m / Weight(i - 1) == n / Weight(i - 1) {
      EqualPrefixes(m, n, i - 1);
      return i;
    }
    first := FirstDifferingTimestampByte(m, n, i - 1);
  }

  lemma SmallerByteSmallerText(u: Bytes, v: Bytes, i: nat, s: string, t: string)
    requires i < 16 && u[..i] == v[..i] && u[i] < v[i]
    requires Renders(s, u) && Renders(t, v)
    ensures LexLess(s, t)
  {
    var k := if u[i] / 16 == v[i] / 16 then 2 * i + 1 else 2 * i;
    assert NibbleAt(u, k) < NibbleAt(v, k);
    var p := TextPosition(k);
    HexDigitsAreOrdered(NibbleAt(u, k), NibbleAt(v, k));
    forall q | 0 <= q < p ensures s[q] == t[q] {
      if !IsDashPosition(q) {
        var l := q - DashesBefore(q);
        assert TextPosition(l) == q && l < k;
        assert l / 2 < i || (l / 2 == i && l == 2 * i);
        assert l / 2 < i ==> u[l / 2] == u[..i][l / 2] == v[..i][l / 2] == v[l / 2];
        assert NibbleAt(u, l) == NibbleAt(v, l);
      }
    }
    assert s[..p] == t[..p];
  }

  /** Whatever their random parts, texts created for an earlier millisecond sort before later ones, up to 2^48. */
  lemma EarlierSortsFirst(m: nat, n: nat, u: Bytes, v: Bytes, s: string, t: string)
    requires m < n < 0x1_0000_0000_0000
    requires forall i :: 0 <= i < 6 ==> u[i] == TimestampByte(m, i) && v[i] == TimestampByte(n, i)
    requires Renders(s, u) && Renders(t, v)
    ensures LexLess(s, t)
  {
    var i := FirstDifferingTimestampByte(m, n, 5);
    assert u[..i] == v[..i];
    SmallerByteSmallerText(u, v, i, s, t);
  }
}

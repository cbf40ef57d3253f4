/** Collection and tenant names: the id in UTF-8 (section 3 of RFC 3629), in base32 (section 6
    of RFC 4648), without the trailing padding, behind a prefix for its kind.

    An id is a sequence of code points, as a Python string is; a lone surrogate in it makes
    `str.encode` raise. */
module Naming {
  import opened Wrappers

  type CodePoint = n: int | 0 <= n <= 0x10FFFF
  type Byte = n: int | 0 <= n <= 0xFF
  type Digit = n: int | 0 <= n < 32

  predicate IsSurrogate(c: CodePoint) { 0xD800 <= c <= 0xDFFF }

  // ---------------------------------------------------------------------------
  // UTF-8
  // ---------------------------------------------------------------------------

  function Utf8Char(c: CodePoint): seq<Byte> {
    if c < 0x80 then [c]
    else if c < 0x800 then [0xC0 + c / 0x40, 0x80 + c % 0x40]
    else if c < 0x10000 then [0xE0 + c / 0x1000, 0x80 + c / 0x40 % 0x40, 0x80 + c % 0x40]
    else [0xF0 + c / 0x40000, 0x80 + c / 0x1000 % 0x40, 0x80 + c / 0x40 % 0x40, 0x80 + c % 0x40]
  }

  function Utf8(id: seq<CodePoint>): Result<seq<Byte>, string> {
    if id == [] then Ok([])
    else if IsSurrogate(id[0]) then Err("surrogates not allowed")
    else
      match Utf8(id[1..])
      case Ok(rest) => Ok(Utf8Char(id[0]) + rest)
      case Err(e) => Err(e)
  }

  /** The number of bytes that a lead byte announces. */
  function Width(lead: Byte): nat {
    if lead < 0x80 then 1 else if lead < 0xE0 then 2 else if lead < 0xF0 then 3 else 4
  }

  /** The code point of a well-formed group. */
  function PointOf(group: seq<Byte>): nat
    requires 1 <= |group| <= 4
  {
    if |group| == 1 then group[0]
    else if |group| == 2 then Join(group[0] % 0x20, group[1])
    else if |group| == 3 then Join(Join(group[0] % 0x10, group[1]), group[2])
    else Join(Join(Join(group[0] % 8, group[1]), group[2]), group[3])
  }

  /** Six more bits. */
  function Join(high: nat, continuation: Byte): nat {
    high * 0x40 + continuation as int % 0x40
  }

  function FromUtf8(bytes: seq<Byte>): seq<nat> {
    if bytes == [] then []
    else
      var w := if Width(bytes[0]) <= |bytes| then Width(bytes[0]) else |bytes|;
      [PointOf(bytes[..w])] + FromUtf8(bytes[w..])
  }

  lemma JoinSplit(c: nat)
    ensures Join(c / 0x40, 0x80 + c % 0x40) == c
    ensures c / 0x40 / 0x40 == c / 0x1000 && c / 0x1000 / 0x40 == c / 0x40000
  {
  }

  lemma TwoBytes(c: CodePoint)
    requires 0x80 <= c < 0x800
    ensures Width(Utf8Char(c)[0]) == |Utf8Char(c)| && PointOf(Utf8Char(c)) == c
  {
    JoinSplit(c);
    assert (0xC0 + c / 0x40) % 0x20 == c / 0x40;
  }

  lemma ThreeBytes(c: CodePoint)
    requires 0x800 <= c < 0x10000
    ensures Width(Utf8Char(c)[0]) == |Utf8Char(c)| && PointOf(Utf8Char(c)) == c
  {
    JoinSplit(c);
    JoinSplit(c / 0x40);
    assert (0xE0 + c / 0x1000) % 0x10 == c / 0x1000;
  }

  lemma FourBytes(c: CodePoint)
    requires 0x10000 <= c
    ensures Width(Utf8Char(c)[0]) == |Utf8Char(c)| && PointOf(Utf8Char(c)) == c
  {
    JoinSplit(c);
    JoinSplit(c / 0x40);
    JoinSplit(c / 0x1000);
    assert (0xF0 + c / 0x40000) % 8 == c / 0x40000;
  }

  lemma CharRoundTrip(c: CodePoint)
    ensures Width(Utf8Char(c)[0]) == |Utf8Char(c)| && PointOf(Utf8Char(c)) == c
  {
    if c < 0x80 {
    } else if c < 0x800 {
      TwoBytes(c);
    } else if c < 0x10000 {
      ThreeBytes(c);
    } else {
      FourBytes(c);
    }
  }

  /** The bytes of a code point, as the table of RFC 3629 gives them: the fewest that can hold it,
      a lead byte that tells how many, and six bits in each byte that follows. */
  lemma Utf8CharExactly(c: CodePoint)
    ensures var b := Utf8Char(c);
            && (c <= 0x7F ==> b == [c])
            && (0x80 <= c <= 0x7FF ==>
                |b| == 2 && 0xC2 <= b[0] <= 0xDF && c == 64 * (b[0] as int - 0xC0) + (b[1] as int - 0x80))
            && (0x800 <= c <= 0xFFFF ==>
                && |b| == 3 && 0xE0 <= b[0] <= 0xEF
                && c == 4096 * (b[0] as int - 0xE0) + 64 * (b[1] as int - 0x80) + (b[2] as int - 0x80))
            && (0x10000 <= c ==>
                && |b| == 4 && 0xF0 <= b[0] <= 0xF4
                && c == 262144 * (b[0] as int - 0xF0) + 4096 * (b[1] as int - 0x80) + 64 * (b[2] as int - 0x80)
                        + (b[3] as int - 0x80))
            && forall i :: 1 <= i < |b| ==> 0x80 <= b[i] <= 0xBF
  {
    JoinSplit(c);
    JoinSplit(c / 0x40);
    JoinSplit(c / 0x1000);
  }

  predicate Encodable(id: seq<CodePoint>) {
    forall i :: 0 <= i < |id| ==> !IsSurrogate(id[i])
  }

  lemma EncodableCons(id: seq<CodePoint>)
    requires id != []
    ensures Encodable(id) <==> !IsSurrogate(id[0]) && Encodable(id[1..])
  {
    assert forall i :: 1 <= i < |id| ==> id[i] == id[1..][i - 1];
  }

  /** Decoding splits off one group at a time. */
  lemma DecodeCons(c: CodePoint, rest: seq<Byte>)
    ensures FromUtf8(Utf8Char(c) + rest) == [c] + FromUtf8(rest)
  {
    var group := Utf8Char(c);
    CharRoundTrip(c);
    assert (group + rest)[..|group|] == group && (group + rest)[|group|..] == rest;
  }

  lemma {:induction false} Utf8RoundTrip(id: seq<CodePoint>)
    ensures Utf8(id).Ok? <==> Encodable(id)
    ensures Utf8(id).Ok? ==> FromUtf8(Utf8(id).value) == id
  {
    if id != [] {
      Utf8RoundTrip(id[1..]);
      EncodableCons(id);
      if Utf8(id).Ok? {
        DecodeCons(id[0], Utf8(id[1..]).value);
      }
    }
  }

  // ---------------------------------------------------------------------------
  // Base32
  // ---------------------------------------------------------------------------

  function Symbol(d: Digit): char {
    if d < 26 then 'A' + d as char else '2' + (d - 26) as char
  }

  /** The alphabet of RFC 4648. */
  lemma SymbolExactly(d: Digit)
    ensures Symbol(d) == "ABCDEFGHIJKLMNOPQRSTUVWXYZ234567"[d]
  {
    var alphabet := "ABCDEFGHIJKLMNOPQRSTUVWXYZ234567";
    if d < 8 {
      assert alphabet[d] == Symbol(d);
    } else if d < 16 {
      assert alphabet[d] == Symbol(d);
    } else if d < 24 {
      assert alphabet[d] == Symbol(d);
    } else {
      assert alphabet[d] == Symbol(d);
    }
  }

  function NumberIn(base: nat, digits: seq<int>): int {
    if digits == [] then 0 else NumberIn(base, digits[..|digits| - 1]) * base + digits[|digits| - 1]
  }

  /** The eight digits of five bytes are the same 40-bit number. */
  lemma DigitsExactly(b: seq<Byte>)
    requires |b| == 5
    ensures NumberIn(32, Digits(b)) == NumberIn(256, b)
  {
    var d := Digits(b);
    NumberOfFive(256, b);
    assert d[..8] == d && d[..5][..5] == d[..5];
    NumberOfFive(32, d[..5]);
    NumberOfThree(32, d);
    SplitBytes(b);
    hide NumberIn, Digits;
  }

  lemma SplitBytes(b: seq<Byte>)
    requires |b| == 5
    ensures b[0] == Digits(b)[0] as int * 8 + b[0] % 8 && Digits(b)[1] == b[0] % 8 * 4 + b[1] / 64
    ensures b[1] == b[1] / 64 * 64 + Digits(b)[2] as int * 2 + b[1] % 2 && Digits(b)[3] == b[1] % 2 * 16 + b[2] / 16
    ensures b[2] == b[2] / 16 * 16 + b[2] % 16 && Digits(b)[4] == b[2] % 16 * 2 + b[3] / 128
    ensures b[3] == b[3] / 128 * 128 + Digits(b)[5] as int * 4 + b[3] % 4 && Digits(b)[6] == b[3] % 4 * 8 + b[4] / 32
    ensures b[4] == b[4] / 32 * 32 + Digits(b)[7]
  {
  }

  lemma NumberOfFive(base: nat, digits: seq<int>)
    requires |digits| == 5
    ensures NumberIn(base, digits)
            == (((digits[0] * base + digits[1]) * base + digits[2]) * base + digits[3]) * base + digits[4]
  {
    assert digits[..4][..3] == digits[..3] && digits[..3][..2] == digits[..2] && digits[..2][..1] == digits[..1];
    assert NumberIn(base, digits[..1]) == digits[0];
    assert NumberIn(base, digits[..2]) == digits[0] * base + digits[1];
    assert NumberIn(base, digits[..3]) == NumberIn(base, digits[..2]) * base + digits[2];
    assert NumberIn(base, digits[..4]) == NumberIn(base, digits[..3]) * base + digits[3];
  }

  lemma NumberOfThree(base: nat, digits: seq<int>)
    requires |digits| == 8
    ensures NumberIn(base, digits)
            == ((NumberIn(base, digits[..5]) * base + digits[5]) * base + digits[6]) * base + digits[7]
  {
    assert digits[..7][..6] == digits[..6] && digits[..6][..5] == digits[..5];
    assert NumberIn(base, digits[..6]) == NumberIn(base, digits[..5]) * base + digits[5];
    assert NumberIn(base, digits[..7]) == NumberIn(base, digits[..6]) * base + digits[6];
  }

  predicate InAlphabet(c: char) { 'A' <= c <= 'Z' || '2' <= c <= '7' }

  function Value(c: char): Digit {
    if 'A' <= c <= 'Z' then c as int - 'A' as int
    else if '2' <= c <= '7' then 26 + (c as int - '2' as int)
    else 0
  }

  function Symbols(digits: seq<Digit>): (s: string)
    ensures |s| == |digits| && forall i :: 0 <= i < |s| ==> s[i] == Symbol(digits[i])
  {
    if digits == [] then "" else [Symbol(digits[0])] + Symbols(digits[1..])
  }

  function Spread(high: nat, weight: nat, low: nat): nat { high * weight + low }

  /** Five bytes as eight 5-bit digits, most significant first. */
  function Digits(b: seq<Byte>): (d: seq<Digit>)
    requires |b| == 5
    ensures |d| == 8
  {
    [b[0] / 8, b[0] % 8 * 4 + b[1] / 64, b[1] / 2 % 32, b[1] % 2 * 16 + b[2] / 16,
     b[2] % 16 * 2 + b[3] / 128, b[3] / 4 % 32, b[3] % 4 * 8 + b[4] / 32, b[4] % 32]
  }

  function Bytes(d: seq<Digit>): (b: seq<Byte>)
    requires |d| == 8
    ensures |b| == 5
  {
    [Spread(d[0], 8, d[1] / 4), Spread(d[1] % 4, 64, Spread(d[2], 2, d[3] / 16)), Spread(d[3] % 16, 16, d[4] / 2),
     Spread(d[4] % 2, 128, Spread(d[5], 4, d[6] / 8)), Spread(d[6] % 8, 32, d[7])]
  }

  function Repeat<T>(x: T, n: nat): (s: seq<T>)
    ensures |s| == n && forall i :: 0 <= i < n ==> s[i] == x
  {
    seq(n, i => x)
  }

  /** How many symbols carry the bits of a group of at most five bytes. */
  function SymbolCount(bytes: nat): nat { (8 * bytes + 4) / 5 }

  /** One quantum: a short one is filled up with zero bits, and the symbols that carry none of
      its bits become padding. */
  function Quantum(b: seq<Byte>): (s: string)
    requires 1 <= |b| <= 5
    ensures |s| == 8
  {
    var k := SymbolCount(|b|);
    Symbols(Digits(b + Repeat(0, 5 - |b|))[..k]) + Repeat('=', 8 - k)
  }

  function Base32(bytes: seq<Byte>): string {
    if bytes == [] then ""
    else if |bytes| <= 5 then Quantum(bytes)
    else Quantum(bytes[..5]) + Base32(bytes[5..])
  }

  function StripPadding(s: string): string {
    if s != "" && s[|s| - 1] == '=' then StripPadding(s[..|s| - 1]) else s
  }

  function EncodeId(id: seq<CodePoint>): Result<string, string> {
    match Utf8(id)
    case Ok(bytes) => Ok(StripPadding(Base32(bytes)))
    case Err(e) => Err(e)
  }

  const COLLECTION_PREFIX := "Workspace_"
  const TENANT_PREFIX := "User_"

  function CollectionName(workspace: seq<CodePoint>): Result<string, string> {
    match EncodeId(workspace)
    case Ok(s) => Ok(COLLECTION_PREFIX + s)
    case Err(e) => Err(e)
  }

  function TenantName(user: seq<CodePoint>): Result<string, string> {
    match EncodeId(user)
    case Ok(s) => Ok(TENANT_PREFIX + s)
    case Err(e) => Err(e)
  }

  // ---------------------------------------------------------------------------
  // The decoder, and the way back
  // ---------------------------------------------------------------------------

  function ValuesOf(s: string): (d: seq<Digit>)
    ensures |d| == |s|
  {
    if s == "" then [] else [Value(s[0])] + ValuesOf(s[1..])
  }

  /** Reads unpadded base32: eight symbols give five bytes, and a short rest as many whole
      bytes as it holds. */
  function FromBase32(s: string): seq<Byte> {
    if s == "" then []
    else if |s| <= 8 then Bytes(ValuesOf(s) + Repeat(0, 8 - |s|))[..5 * |s| / 8]
    else Bytes(ValuesOf(s[..8])) + FromBase32(s[8..])
  }

  lemma {:induction false} SymbolsRoundTrip(d: seq<Digit>)
    ensures ValuesOf(Symbols(d)) == d
    ensures forall i :: 0 <= i < |d| ==> InAlphabet(Symbols(d)[i])
  {
    if d != [] {
      SymbolsRoundTrip(d[1..]);
      assert Symbols(d)[1..] == Symbols(d[1..]);
    }
  }

  lemma FirstByte(b0: Byte, b1: Byte)
    ensures Spread(b0 / 8, 8, (b0 % 8 * 4 + b1 / 64) / 4) == b0
    ensures (b0 % 8 * 4 + b1 / 64) % 4 == b1 / 64
  {
  }

  lemma SecondByte(b1: Byte, b2: Byte)
    ensures Spread(b1 / 64, 64, Spread(b1 / 2 % 32, 2, (b1 % 2 * 16 + b2 / 16) / 16)) == b1
    ensures (b1 % 2 * 16 + b2 / 16) % 16 == b2 / 16
  {
    assert (b1 % 2 * 16 + b2 / 16) / 16 == b1 % 2;
    assert b1 == b1 / 64 * 64 + b1 / 2 % 32 * 2 + b1 % 2;
  }

  lemma ThirdByte(b2: Byte, b3: Byte)
    ensures Spread(b2 / 16, 16, (b2 % 16 * 2 + b3 / 128) / 2) == b2
    ensures (b2 % 16 * 2 + b3 / 128) % 2 == b3 / 128
  {
  }

  lemma LastTwo(b3: Byte, b4: Byte)
    ensures Spread(b3 / 128, 128, Spread(b3 / 4 % 32, 4, (b3 % 4 * 8 + b4 / 32) / 8)) == b3
    ensures Spread((b3 % 4 * 8 + b4 / 32) % 8, 32, b4 % 32) == b4
  {
    assert (b3 % 4 * 8 + b4 / 32) / 8 == b3 % 4;
    assert b3 == b3 / 128 * 128 + b3 / 4 % 32 * 4 + b3 % 4;
  }

  lemma FirstBytes(b: seq<Byte>)
    requires |b| == 5
    ensures Bytes(Digits(b))[0] == b[0] && Bytes(Digits(b))[1] == b[1]
  {
    FirstByte(b[0], b[1]);
    SecondByte(b[1], b[2]);
  }

  lemma LastBytes(b: seq<Byte>)
    requires |b| == 5
    ensures Bytes(Digits(b))[2] == b[2] && Bytes(Digits(b))[3] == b[3] && Bytes(Digits(b))[4] == b[4]
  {
    SecondByte(b[1], b[2]);
    ThirdByte(b[2], b[3]);
    LastTwo(b[3], b[4]);
  }

  lemma FullQuantum(b: seq<Byte>)
    requires |b| == 5
    ensures Bytes(Digits(b)) == b
  {
    FirstBytes(b);
    LastBytes(b);
  }

  /** A short group loses nothing: the dropped digits are zero, and so are the dropped bytes. */
  lemma DroppedDigits(b: seq<Byte>)
    requires 1 <= |b| <= 5
    ensures var k := SymbolCount(|b|); k <= 8 && 5 * k / 8 == |b|
    ensures var k, d := SymbolCount(|b|), Digits(b + Repeat(0, 5 - |b|)); d[..k] + Repeat(0, 8 - k) == d
  {
    var k := SymbolCount(|b|);
    var full := b + Repeat(0, 5 - |b|);
    var d := Digits(full);
    assert forall i :: |b| <= i < 5 ==> full[i] == 0;
    if |b| == 1 {
      assert full[1] == 0 && full[2] == 0 && full[3] == 0 && full[4] == 0;
    } else if |b| == 2 {
      assert full[2] == 0 && full[3] == 0 && full[4] == 0;
    } else if |b| == 3 {
      assert full[3] == 0 && full[4] == 0;
    } else if |b| == 4 {
      assert full[4] == 0;
    }
    assert forall i :: k <= i < 8 ==> d[i] == 0;
    assert d[..k] + Repeat(0, 8 - k) == d;
  }

  lemma ShortQuantum(b: seq<Byte>)
    requires 1 <= |b| <= 5
    ensures FromBase32(Symbols(Digits(b + Repeat(0, 5 - |b|))[..SymbolCount(|b|)])) == b
  {
    var full := b + Repeat(0, 5 - |b|);
    var kept := Digits(full)[..SymbolCount(|b|)];
    SymbolsRoundTrip(kept);
    DroppedDigits(b);
    FullQuantum(full);
    assert full[..|b|] == b;
  }

  lemma LongQuantum(b: seq<Byte>, tail: string)
    requires |b| == 5 && tail != ""
    ensures FromBase32(Symbols(Digits(b)) + tail) == b + FromBase32(tail)
  {
    var head := Symbols(Digits(b));
    SymbolsRoundTrip(Digits(b));
    FullQuantum(b);
    assert (head + tail)[..8] == head && (head + tail)[8..] == tail;
  }

  lemma StripAll(s: string, n: nat)
    requires s != "" ==> s[|s| - 1] != '='
    ensures StripPadding(s + Repeat('=', n)) == s
  {
    if n > 0 {
      var t := s + Repeat('=', n);
      assert t[..|t| - 1] == s + Repeat('=', n - 1);
      StripAll(s, n - 1);
    } else {
      assert s + Repeat('=', 0) == s;
    }
  }

  /** The unpadded symbols of some bytes. */
  function Unpadded(bytes: seq<Byte>): string {
    if bytes == [] then ""
    else if |bytes| <= 5 then Symbols(Digits(bytes + Repeat(0, 5 - |bytes|))[..SymbolCount(|bytes|)])
    else Symbols(Digits(bytes[..5])) + Unpadded(bytes[5..])
  }

  lemma {:induction false} UnpaddedProperties(bytes: seq<Byte>)
    ensures |Unpadded(bytes)| == (8 * |bytes| + 4) / 5
    ensures forall i :: 0 <= i < |Unpadded(bytes)| ==> InAlphabet(Unpadded(bytes)[i])
  {
    if 0 < |bytes| <= 5 {
      SymbolsRoundTrip(Digits(bytes + Repeat(0, 5 - |bytes|))[..SymbolCount(|bytes|)]);
    } else if bytes != [] {
      SymbolsRoundTrip(Digits(bytes[..5]));
      UnpaddedProperties(bytes[5..]);
    }
  }

  /** Padding appears only at the very end, at most six of it. */
  lemma {:induction false} PaddingAtEnd(bytes: seq<Byte>) returns (n: nat)
    ensures Base32(bytes) == Unpadded(bytes) + Repeat('=', n) && n <= 6
  {
    if |bytes| <= 5 {
      n := if bytes == [] then 0 else 8 - SymbolCount(|bytes|);
    } else {
      n := PaddingAtEnd(bytes[5..]);
      assert bytes[..5] + Repeat(0, 0) == bytes[..5];
      assert Digits(bytes[..5])[..8] == Digits(bytes[..5]);
      assert Quantum(bytes[..5]) == Symbols(Digits(bytes[..5]));
    }
  }

  lemma StripBase32(bytes: seq<Byte>)
    ensures StripPadding(Base32(bytes)) == Unpadded(bytes)
  {
    var n := PaddingAtEnd(bytes);
    UnpaddedProperties(bytes);
    StripAll(Unpadded(bytes), n);
  }

  lemma {:induction false} UnpaddedRoundTrip(bytes: seq<Byte>)
    ensures FromBase32(Unpadded(bytes)) == bytes
  {
    if bytes == [] {
    } else if |bytes| <= 5 {
      ShortQuantum(bytes);
    } else {
      UnpaddedRoundTrip(bytes[5..]);
      UnpaddedProperties(bytes[5..]);
      LongQuantum(bytes[..5], Unpadded(bytes[5..]));
    }
  }

  // ---------------------------------------------------------------------------
  // What the names promise
  // ---------------------------------------------------------------------------

  function IdOfCollection(name: string): seq<nat>
    requires |COLLECTION_PREFIX| <= |name|
  {
    FromUtf8(FromBase32(name[|COLLECTION_PREFIX|..]))
  }

  function IdOfTenant(name: string): seq<nat>
    requires |TENANT_PREFIX| <= |name|
  {
    FromUtf8(FromBase32(name[|TENANT_PREFIX|..]))
  }

  lemma EncodedRoundTrip(id: seq<CodePoint>)
    ensures EncodeId(id).Ok? <==> Encodable(id)
    ensures EncodeId(id).Ok? ==> FromUtf8(FromBase32(EncodeId(id).value)) == id
  {
    Utf8RoundTrip(id);
    if EncodeId(id).Ok? {
      StripBase32(Utf8(id).value);
      UnpaddedRoundTrip(Utf8(id).value);
    }
  }

  /** A name gives back the id it was made from; a name exists exactly for an id without lone
      surrogates. */
  lemma NamesRoundTrip(id: seq<CodePoint>)
    ensures CollectionName(id).Ok? <==> Encodable(id)
    ensures TenantName(id).Ok? <==> Encodable(id)
    ensures CollectionName(id).Ok? ==> IdOfCollection(CollectionName(id).value) == id
    ensures TenantName(id).Ok? ==> IdOfTenant(TenantName(id).value) == id
  {
    EncodedRoundTrip(id);
  }

  /** Distinct ids never share a name, and no collection is called like a tenant. */
  lemma NamesAreInjective(a: seq<CodePoint>, b: seq<CodePoint>)
    ensures CollectionName(a).Ok? && CollectionName(a) == CollectionName(b) ==> a == b
    ensures TenantName(a).Ok? && TenantName(a) == TenantName(b) ==> a == b
    ensures CollectionName(a).Ok? ==> CollectionName(a) != TenantName(b)
  {
    NamesRoundTrip(a);
    NamesRoundTrip(b);
    if CollectionName(a).Ok? && TenantName(b).Ok? {
      assert CollectionName(a).value[0] == 'W' && TenantName(b).value[0] == 'U';
    }
  }

  /** After the prefix come only A-Z and 2-7, and ceil(8n/5) of them for n bytes. */
  lemma NamesAreWellFormed(id: seq<CodePoint>)
    requires Utf8(id).Ok?
    ensures EncodeId(id).Ok? && |EncodeId(id).value| == (8 * |Utf8(id).value| + 4) / 5
    ensures forall i :: 0 <= i < |EncodeId(id).value| ==> InAlphabet(EncodeId(id).value[i])
  {
    StripBase32(Utf8(id).value);
    UnpaddedProperties(Utf8(id).value);
  }

  lemma GoldenHead()
    ensures Symbols(Digits([119, 115, 45, 49, 50])) == "O5ZS2MJS"
  {
    var d := Digits([119, 115, 45, 49, 50]);
    assert d == [14, 29, 25, 18, 26, 12, 9, 18];
    hide Digits, Symbols;
    var s := Symbols(d);
    assert s[0] == Symbol(14) && s[1] == Symbol(29) && s[2] == Symbol(25) && s[3] == Symbol(18);
    assert s[4] == Symbol(26) && s[5] == Symbol(12) && s[6] == Symbol(9) && s[7] == Symbol(18);
  }

  lemma GoldenTail()
    ensures Symbols(Digits([51] + Repeat(0, 4))[..2]) == "GM"
  {
    var d := Digits([51] + Repeat(0, 4))[..2];
    assert d == [6, 12];
    var s := Symbols(d);
    assert s[0] == Symbol(6) && s[1] == Symbol(12);
  }

  /** One of the names that both services' contract tests pin down: that of "ws-123". */
  lemma GoldenName(id: seq<CodePoint>)
    requires id == [119, 115, 45, 49, 50, 51]
    ensures CollectionName(id) == Ok("Workspace_" + "O5ZS2MJSGM")
    ensures TenantName(id) == Ok("User_" + "O5ZS2MJSGM")
  {
    AsciiUtf8(id);
    var bytes := Utf8(id).value;
    GoldenUnpadded(bytes);
    StripBase32(bytes);
  }

  lemma GoldenUnpadded(bytes: seq<Byte>)
    requires bytes == [119, 115, 45, 49, 50, 51]
    ensures Unpadded(bytes) == "O5ZS2MJSGM"
  {
    assert bytes[..5] == [119, 115, 45, 49, 50] && bytes[5..] == [51];
    GoldenHead();
    GoldenTail();
    assert Unpadded([51]) == "GM";
  }

  lemma {:induction false} AsciiUtf8(id: seq<CodePoint>)
    requires forall i :: 0 <= i < |id| ==> id[i] < 0x80
    ensures Utf8(id).Ok? && |Utf8(id).value| == |id| && forall i :: 0 <= i < |id| ==> Utf8(id).value[i] == id[i]
  {
    if id != [] {
      AsciiUtf8(id[1..]);
    }
  }
}

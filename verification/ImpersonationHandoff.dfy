/** The impersonation handoff: base64url text in the hash of a launch URL (RFC 4648, sections 4 and 5). */
module ImpersonationHandoff {

  import opened Options

  type Byte = x: int | 0 <= x < 256

  type Sextet = x: int | 0 <= x < 64

  // ----- The alphabets -----

  /** Table 1 of RFC 4648, section 4. */
  function StandardChar(v: Sextet): char {
    if v < 26 then (v + 'A' as int) as char
    else if v < 52 then (v - 26 + 'a' as int) as char
    else if v < 62 then (v - 52 + '0' as int) as char
    else if v == 62 then '+' else '/'
  }

  predicate IsStandardChar(c: char) {
    'A' <= c <= 'Z' || 'a' <= c <= 'z' || '0' <= c <= '9' || c == '+' || c == '/'
  }

  function StandardValue(c: char): Sextet
    requires IsStandardChar(c)
  {
    if 'A' <= c <= 'Z' then c as int - 'A' as int
    else if 'a' <= c <= 'z' then c as int - 'a' as int + 26
    else if '0' <= c <= '9' then c as int - '0' as int + 52
    else if c == '+' then 62 else 63
  }

  /** The URL-safe alphabet of section 5, without padding. */
  predicate IsUrlSafeChar(c: char) {
    'A' <= c <= 'Z' || 'a' <= c <= 'z' || '0' <= c <= '9' || c == '-' || c == '_'
  }

  // ----- btoa and atob -----

  /** The text of a byte group of one, two or three bytes, without padding. */
  function Group(b: seq<Byte>): string
    requires 1 <= |b| <= 3
  {
    var b0 := b[0];
    var b1 := if |b| > 1 then b[1] else 0;
    var b2 := if |b| > 2 then b[2] else 0;
    [StandardChar(b0 / 4), StandardChar(b0 % 4 * 16 + b1 / 16)]
    + (if |b| > 1 then [StandardChar(b1 % 16 * 4 + b2 / 64)] else [])
    + (if |b| > 2 then [StandardChar(b2 % 64)] else [])
  }

  /** `btoa`: groups of three bytes to four characters, the last padded with `=`. */
  function Btoa(bytes: seq<Byte>): string {
    if bytes == [] then ""
    else if |bytes| < 3 then Group(bytes) + Repeat('=', 3 - |bytes|)
    else Group(bytes[..3]) + Btoa(bytes[3..])
  }

  function Repeat(c: char, n: nat): string {
    seq(n, _ => c)
  }

  predicate AllStandard(s: string) {
    forall i :: 0 <= i < |s| ==> IsStandardChar(s[i])
  }

  /** The bytes of two, three or four characters; low bits that fill no byte are discarded. */
  function Ungroup(s: string): seq<Byte>
    requires 2 <= |s| <= 4 && AllStandard(s)
  {
    var v0, v1 := StandardValue(s[0]), StandardValue(s[1]);
    [v0 * 4 + v1 / 16]
    + (if |s| > 2 then [v1 % 16 * 16 + StandardValue(s[2]) / 4] else [])
    + (if |s| > 3 then [StandardValue(s[2]) % 4 * 64 + StandardValue(s[3])] else [])
  }

  function DecodeGroups(s: string): Option<seq<Byte>>
    requires AllStandard(s)
  {
    if s == [] then Some([])
    else if |s| == 1 then None
    else if |s| <= 4 then Some(Ungroup(s))
    else
      match DecodeGroups(s[4..])
      case None => None
      case Some(rest) => Some(Ungroup(s[..4]) + rest)
  }

  /** The next step of `atob`: up to two `=` come off text whose length is a multiple of four. */
  function Unpad(s: string): string {
    if |s| % 4 != 0 || |s| < 2 || s[|s| - 1] != '=' then s
    else if s[|s| - 2] == '=' then s[..|s| - 2]
    else s[..|s| - 1]
  }

  /** ASCII white space, which `atob` drops before anything else. */
  predicate IsAsciiSpace(c: char) {
    c in " \t\n\r" || c == '\U{c}'
  }

  function DropSpaces(s: string): string {
    if s == [] then [] else (if IsAsciiSpace(s[0]) then [] else [s[0]]) + DropSpaces(s[1..])
  }

  /** `atob`: any character outside the alphabet, save white space, is an error. */
  function Atob(s: string): Option<seq<Byte>> {
    var unpadded := Unpad(DropSpaces(s));
    if AllStandard(unpadded) then DecodeGroups(unpadded) else None
  }

  // ----- The URL-safe codec -----

  function Replace(s: string, from: char, to: char): string {
    seq(|s|, i requires 0 <= i < |s| => if s[i] == from then to else s[i])
  }

  /** `.replace(/=+$/, '')`. */
  function StripPadding(s: string): string {
    if s != [] && s[|s| - 1] == '=' then StripPadding(s[..|s| - 1]) else s
  }

  function EncodeUrlSafe(bytes: seq<Byte>): string {
    StripPadding(Replace(Replace(Btoa(bytes), '+', '-'), '/', '_'))
  }

  /** The bytes a binary string stands for; btoa refuses characters beyond them. */
  function CharCodes(binary: string): seq<Byte>
    requires forall i :: 0 <= i < |binary| ==> binary[i] as int < 256
  {
    seq(|binary|, i requires 0 <= i < |binary| => binary[i] as int)
  }

  /** toBase64Url, on the UTF-8 bytes of its argument. */
  method ToBase64Url(bytes: seq<Byte>) returns (text: string)
    ensures text == EncodeUrlSafe(bytes)
  {
    var binary: string := "";
    for i := 0 to |bytes|
      invariant |binary| == i
      invariant forall k :: 0 <= k < i ==> binary[k] as int == bytes[k]
    {
      binary := binary + [bytes[i] as char];
    }
    assert CharCodes(binary) == bytes;
    text := StripPadding(Replace(Replace(Btoa(CharCodes(binary)), '+', '-'), '/', '_'));
  }

  function Padding(p: string): nat {
    (4 - |p| % 4) % 4
  }

  /** fromBase64Url, to the UTF-8 bytes of its result. */
  function FromBase64Url(value: string): Option<seq<Byte>> {
    var normalized := Replace(Replace(value, '-', '+'), '_', '/');
    Atob(normalized + Repeat('=', Padding(normalized)))
  }

  lemma CharRoundTrip(v: Sextet)
    ensures IsStandardChar(StandardChar(v)) && StandardValue(StandardChar(v)) == v
  {
  }

  lemma GroupRoundTrip(b: seq<Byte>)
    requires 1 <= |b| <= 3
    ensures AllStandard(Group(b)) && |Group(b)| == |b| + 1
    ensures Ungroup(Group(b)) == b
  {
    hide Group, Ungroup, AllStandard;
    if |b| == 1 {
      assert b == [b[0]];
      OneByte(b[0]);
    } else if |b| == 2 {
      assert b == [b[0], b[1]];
      TwoBytes(b[0], b[1]);
    } else {
      assert b == [b[0], b[1], b[2]];
      ThreeBytes(b[0], b[1], b[2]);
    }
  }

  lemma OneByte(x: Byte)
    ensures AllStandard(Group([x])) && |Group([x])| == 2 && Ungroup(Group([x])) == [x]
  {
    hide StandardChar, StandardValue, IsStandardChar;
    CharRoundTrip(x / 4);
    CharRoundTrip(x % 4 * 16);
    Bits(x, 4, 0);
  }

  lemma TwoBytes(x: Byte, y: Byte)
    ensures AllStandard(Group([x, y])) && |Group([x, y])| == 3 && Ungroup(Group([x, y])) == [x, y]
  {
    hide StandardChar, StandardValue, IsStandardChar;
    CharRoundTrip(x / 4);
    CharRoundTrip(x % 4 * 16 + y / 16);
    CharRoundTrip(y % 16 * 4);
    Bits(x, 4, y / 16);
    Bits(y, 16, 0);
  }

  lemma ThreeBytes(x: Byte, y: Byte, z: Byte)
    ensures AllStandard(Group([x, y, z])) && |Group([x, y, z])| == 4 && Ungroup(Group([x, y, z])) == [x, y, z]
  {
    hide StandardChar, StandardValue, IsStandardChar, Group, Ungroup;
    var v0, v1, v2, v3 := x / 4, x % 4 * 16 + y / 16, y % 16 * 4 + z / 64, z % 64;
    assert Group([x, y, z]) == [StandardChar(v0), StandardChar(v1), StandardChar(v2), StandardChar(v3)] by { GroupOfThree(x, y, z); }
    UngroupFour(v0, v1, v2, v3);
    Bits(x, 4, y / 16);
    Bits(y, 16, z / 64);
    assert v2 % 4 * 64 + v3 == z;
  }

  lemma GroupOfThree(x: Byte, y: Byte, z: Byte)
    ensures Group([x, y, z])
         == [StandardChar(x / 4), StandardChar(x % 4 * 16 + y / 16), StandardChar(y % 16 * 4 + z / 64), StandardChar(z % 64)]
  {
    hide StandardChar;
  }

  lemma UngroupFour(v0: Sextet, v1: Sextet, v2: Sextet, v3: Sextet)
    ensures var s := [StandardChar(v0), StandardChar(v1), StandardChar(v2), StandardChar(v3)];
      AllStandard(s) && Ungroup(s) == [v0 * 4 + v1 / 16, v1 % 16 * 16 + v2 / 4, v2 % 4 * 64 + v3]
  {
    hide StandardChar, StandardValue, IsStandardChar;
    CharRoundTrip(v0);
    CharRoundTrip(v1);
    CharRoundTrip(v2);
    CharRoundTrip(v3);
  }

  lemma Bits(x: Byte, low: int, y: int)
    requires (low == 4 && 0 <= y < 16) || (low == 16 && 0 <= y < 4)
    ensures low == 4 ==> x / 4 * 4 + (x % 4 * 16 + y) / 16 == x && (x % 4 * 16 + y) % 16 == y
    ensures low == 16 ==> x / 16 * 16 + (x % 16 * 4 + y) / 4 == x && (x % 16 * 4 + y) % 4 == y
  {
  }

  /** The encoding without its padding. */
  function Plain(bytes: seq<Byte>): string {
    if bytes == [] then ""
    else if |bytes| < 3 then Group(bytes)
    else Group(bytes[..3]) + Plain(bytes[3..])
  }

  lemma {:induction false} BtoaIsPaddedPlain(bytes: seq<Byte>)
    ensures Btoa(bytes) == Plain(bytes) + Repeat('=', (3 - |bytes| % 3) % 3)
  {
    hide Group, Repeat;
    if |bytes| >= 3 {
      BtoaIsPaddedPlain(bytes[3..]);
      var pad := Repeat('=', (3 - |bytes| % 3) % 3);
      assert |bytes[3..]| % 3 == |bytes| % 3;
      assert Group(bytes[..3]) + (Plain(bytes[3..]) + pad) == Group(bytes[..3]) + Plain(bytes[3..]) + pad;
    } else if bytes == [] {
      assert Repeat('=', 0) == [] by { NoRepeat(); }
    }
  }

  lemma NoRepeat()
    ensures Repeat('=', 0) == []
  {
  }

  /** Decoding the unpadded groups gives the bytes back; the length tells how much padding was stripped. */
  lemma {:induction false} PlainRoundTrip(bytes: seq<Byte>)
    ensures AllStandard(Plain(bytes)) && DecodeGroups(Plain(bytes)) == Some(bytes)
    ensures Padding(Plain(bytes)) == (3 - |bytes| % 3) % 3
    ensures bytes != [] ==> Plain(bytes) != []
  {
    hide Group, Ungroup, IsStandardChar;
    if 0 < |bytes| < 3 {
      GroupRoundTrip(bytes);
    } else if |bytes| >= 3 {
      var head, tail := Group(bytes[..3]), Plain(bytes[3..]);
      GroupRoundTrip(bytes[..3]);
      PlainRoundTrip(bytes[3..]);
      assert Plain(bytes) == head + tail;
      assert (head + tail)[..4] == head && (head + tail)[4..] == tail;
      assert bytes == bytes[..3] + bytes[3..];
      assert tail == [] ==> Plain(bytes) == head && bytes == bytes[..3];
    }
  }

  function ToUrlChars(s: string): string {
    Replace(Replace(s, '+', '-'), '/', '_')
  }

  lemma UrlCharsBack(s: string)
    requires AllStandard(s)
    ensures Replace(Replace(ToUrlChars(s), '-', '+'), '_', '/') == s
    ensures forall i :: 0 <= i < |s| ==> IsUrlSafeChar(ToUrlChars(s)[i])
  {
  }

  lemma {:induction false} StripRepeat(s: string, n: nat)
    requires s == [] || s[|s| - 1] != '='
    ensures StripPadding(s + Repeat('=', n)) == s
  {
    var t := s + Repeat('=', n);
    if n == 0 {
      assert t == s;
    } else {
      assert t[..|t| - 1] == s + Repeat('=', n - 1);
      StripRepeat(s, n - 1);
    }
  }

  lemma EncodeIsPlain(bytes: seq<Byte>)
    ensures EncodeUrlSafe(bytes) == ToUrlChars(Plain(bytes))
    ensures AllStandard(Plain(bytes))
  {
    hide Plain, Btoa, DecodeGroups, Repeat, Replace, StripPadding, ToUrlChars;
    var n := (3 - |bytes| % 3) % 3;
    BtoaIsPaddedPlain(bytes);
    PlainRoundTrip(bytes);
    PaddedUrlChars(Plain(bytes), n);
    StripRepeat(ToUrlChars(Plain(bytes)), n);
    UnfoldEncode(bytes);
  }

  lemma UnfoldEncode(bytes: seq<Byte>)
    ensures EncodeUrlSafe(bytes) == StripPadding(ToUrlChars(Btoa(bytes)))
  {
  }

  lemma PaddedUrlChars(p: string, n: nat)
    requires AllStandard(p)
    ensures ToUrlChars(p + Repeat('=', n)) == ToUrlChars(p) + Repeat('=', n)
    ensures ToUrlChars(p) == [] || ToUrlChars(p)[|ToUrlChars(p)| - 1] != '='
  {
    assert p != [] ==> IsStandardChar(p[|p| - 1]);
  }

  /** The stripped padding is restored exactly: `atob` sees the groups and nothing else. */
  lemma UnpadPadded(p: string)
    requires AllStandard(p) && |p| % 4 != 1
    ensures Unpad(p + Repeat('=', Padding(p))) == p
  {
    var s := p + Repeat('=', Padding(p));
    assert |s| % 4 == 0;
    assert p != [] ==> IsStandardChar(s[|p| - 1]);
    if Padding(p) > 0 {
      assert s[..|p|] == p;
    } else {
      assert s == p;
    }
  }

  lemma {:induction false} NothingToDrop(s: string)
    requires forall i :: 0 <= i < |s| ==> !IsAsciiSpace(s[i])
    ensures DropSpaces(s) == s
  {
    if s != [] {
      NothingToDrop(s[1..]);
      assert s == [s[0]] + s[1..];
    }
  }

  lemma PaddedHasNoSpace(p: string, n: nat)
    requires AllStandard(p)
    ensures DropSpaces(p + Repeat('=', n)) == p + Repeat('=', n)
  {
    NothingToDrop(p + Repeat('=', n));
  }

  lemma SameLength(s: string)
    ensures |Replace(Replace(s, '-', '+'), '_', '/')| == |s|
  {
  }

  /** For all byte strings, URL-safe encoding then decoding is the identity. */
  lemma Base64UrlRoundTrip(bytes: seq<Byte>)
    ensures FromBase64Url(EncodeUrlSafe(bytes)) == Some(bytes)
  {
    hide Plain, DecodeGroups, Unpad, Replace, Repeat, EncodeUrlSafe, IsStandardChar, IsUrlSafeChar;
    EncodeIsPlain(bytes);
    UrlCharsBack(Plain(bytes));
    SameLength(ToUrlChars(Plain(bytes)));
    PlainRoundTrip(bytes);
    PaddedHasNoSpace(Plain(bytes), Padding(Plain(bytes)));
    UnpadPadded(Plain(bytes));
  }

  /** The text uses only the URL-safe alphabet: no padding, and nothing a URL would escape. */
  lemma EncodedAlphabet(bytes: seq<Byte>, i: nat)
    requires i < |EncodeUrlSafe(bytes)|
    ensures IsUrlSafeChar(EncodeUrlSafe(bytes)[i])
  {
    EncodeIsPlain(bytes);
    UrlCharsBack(Plain(bytes));
  }

  // ----- What the characters stand for -----

  function Pow2(k: nat): nat {
    if k == 0 then 1 else 2 * Pow2(k - 1)
  }

  /** The lowest `n` bits of `v`, the highest of them first. */
  function BitsOf(v: nat, n: nat): seq<bool> {
    if n == 0 then [] else BitsOf(v / 2, n - 1) + [v % 2 == 1]
  }

  function BitsOfBytes(bytes: seq<Byte>): seq<bool> {
    if bytes == [] then [] else BitsOf(bytes[0], 8) + BitsOfBytes(bytes[1..])
  }

  /** Table 2 of RFC 4648, section 5: the place of a character in the URL-safe alphabet. */
  function UrlSafeValue(c: char): Sextet
    requires IsUrlSafeChar(c)
  {
    if c == '-' then 62 else if c == '_' then 63 else StandardValue(c)
  }

  predicate AllUrlSafe(s: string) {
    forall i :: 0 <= i < |s| ==> IsUrlSafeChar(s[i])
  }

  function BitsOfText(s: string): seq<bool>
    requires AllUrlSafe(s)
  {
    if s == [] then [] else BitsOf(UrlSafeValue(s[0]), 6) + BitsOfText(s[1..])
  }

  function Zeros(n: nat): seq<bool> {
    seq(n, _ => false)
  }

  lemma {:induction false} BitsJoin(x: nat, y: nat, n: nat, k: nat)
    requires y < Pow2(k)
    ensures BitsOf(x * Pow2(k) + y, n + k) == BitsOf(x, n) + BitsOf(y, k)
  {
    if k > 0 {
      var t := x * Pow2(k - 1);
      assert x * Pow2(k) == 2 * t;
      assert (2 * t + y) / 2 == t + y / 2 && (2 * t + y) % 2 == y % 2;
      BitsJoin(x, y / 2, n, k - 1);
    }
  }

  lemma {:induction false} NoBits(k: nat)
    ensures BitsOf(0, k) == Zeros(k)
  {
    if k > 0 { NoBits(k - 1); }
  }

  /** A byte read in two parts. */
  lemma ByteBits(x: Byte)
    ensures BitsOf(x, 8) == BitsOf(x / 4, 6) + BitsOf(x % 4, 2)
    ensures BitsOf(x, 8) == BitsOf(x / 16, 4) + BitsOf(x % 16, 4)
    ensures BitsOf(x, 8) == BitsOf(x / 64, 2) + BitsOf(x % 64, 6)
  {
    Powers();
    BitsJoin(x / 4, x % 4, 6, 2);
    BitsJoin(x / 16, x % 16, 4, 4);
    BitsJoin(x / 64, x % 64, 2, 6);
  }

  lemma Powers()
    ensures Pow2(2) == 4 && Pow2(4) == 16 && Pow2(6) == 64
  {
  }

  /** A sextet put together from two parts. */
  lemma SextetBits(x: nat, y: nat, k: nat)
    requires (k == 4 && x < 4 && y < 16) || (k == 2 && x < 16 && y < 4)
    ensures BitsOf(x * (if k == 4 then 16 else 4) + y, 6) == BitsOf(x, 6 - k) + BitsOf(y, k)
  {
    Powers();
    BitsJoin(x, y, 6 - k, k);
  }

  lemma UrlValue(v: Sextet)
    ensures var u := ToUrlChars([StandardChar(v)]);
      |u| == 1 && IsUrlSafeChar(u[0]) && UrlSafeValue(u[0]) == v
  {
  }

  lemma UrlCharsAt(s: string, i: nat)
    requires i < |s|
    ensures |ToUrlChars(s)| == |s| && ToUrlChars(s)[i] == ToUrlChars([s[i]])[0]
  {
  }

  /** The bits of the URL-safe form of a text of sextets. */
  lemma {:induction false} BitsOfSextets(vs: seq<Sextet>, s: string)
    requires |s| == |vs| && forall i :: 0 <= i < |s| ==> s[i] == StandardChar(vs[i])
    ensures AllUrlSafe(ToUrlChars(s))
    ensures BitsOfText(ToUrlChars(s)) == SextetsBits(vs)
  {
    hide ToUrlChars, StandardChar, UrlSafeValue, IsUrlSafeChar, BitsOf;
    if s == [] {
      UrlCharsTail(s);
    } else {
      UrlCharsAt(s, 0);
      UrlValue(vs[0]);
      BitsOfSextets(vs[1..], s[1..]);
      UrlCharsTail(s);
      var u := ToUrlChars(s);
      assert forall i :: 1 <= i < |u| ==> u[i] == u[1..][i - 1];
    }
  }

  lemma UrlCharsTail(s: string)
    ensures |ToUrlChars(s)| == |s|
    ensures s != [] ==> ToUrlChars(s)[1..] == ToUrlChars(s[1..])
  {
  }

  function SextetsBits(vs: seq<Sextet>): seq<bool> {
    if vs == [] then [] else BitsOf(vs[0], 6) + SextetsBits(vs[1..])
  }

  /** The sextets of a group: the bits of its bytes, filled up with zeros. */
  function GroupSextets(b: seq<Byte>): seq<Sextet>
    requires 1 <= |b| <= 3
  {
    if |b| == 1 then [b[0] / 4, b[0] % 4 * 16 + 0]
    else if |b| == 2 then [b[0] / 4, b[0] % 4 * 16 + b[1] / 16, b[1] % 16 * 4 + 0]
    else [b[0] / 4, b[0] % 4 * 16 + b[1] / 16, b[1] % 16 * 4 + b[2] / 64, b[2] % 64]
  }

  lemma GroupIsSextets(b: seq<Byte>)
    requires 1 <= |b| <= 3
    ensures |Group(b)| == |GroupSextets(b)|
    ensures forall i :: 0 <= i < |Group(b)| ==> Group(b)[i] == StandardChar(GroupSextets(b)[i])
  {
    hide StandardChar;
  }

  lemma {:induction false} SextetsBitsAppend(a: seq<Sextet>, b: seq<Sextet>)
    ensures SextetsBits(a + b) == SextetsBits(a) + SextetsBits(b)
  {
    hide BitsOf;
    if a == [] {
      assert a + b == b;
    } else {
      assert (a + b)[1..] == a[1..] + b;
      SextetsBitsAppend(a[1..], b);
    }
  }

  lemma {:induction false} BytesBitsAppend(a: seq<Byte>, b: seq<Byte>)
    ensures BitsOfBytes(a + b) == BitsOfBytes(a) + BitsOfBytes(b)
  {
    hide BitsOf;
    if a == [] {
      assert a + b == b;
    } else {
      assert (a + b)[1..] == a[1..] + b;
      BytesBitsAppend(a[1..], b);
    }
  }

  lemma OneSextet(v: Sextet)
    ensures SextetsBits([v]) == BitsOf(v, 6)
  {
    hide BitsOf;
    assert [v][1..] == [];
  }

  lemma OneByteBits(x: Byte)
    ensures BitsOfBytes([x]) == BitsOf(x, 8)
  {
    hide BitsOf;
    assert [x][1..] == [];
  }

  lemma TwoSextets(v: Sextet, w: Sextet)
    ensures SextetsBits([v, w]) == BitsOf(v, 6) + BitsOf(w, 6)
  {
    hide BitsOf, SextetsBits;
    OneSextet(v);
    OneSextet(w);
    SextetsBitsAppend([v], [w]);
    assert [v] + [w] == [v, w];
  }

  lemma OneByteGroup(x: Byte)
    ensures SextetsBits(GroupSextets([x])) == BitsOfBytes([x]) + Zeros(4)
  {
    hide BitsOf, SextetsBits, BitsOfBytes, Zeros;
    TwoSextets(x / 4, x % 4 * 16 + 0);
    OneByteBits(x);
    ByteBits(x);
    SextetBits(x % 4, 0, 4);
    NoBits(4);
  }

  lemma TwoByteGroup(x: Byte, y: Byte)
    ensures SextetsBits(GroupSextets([x, y])) == BitsOfBytes([x, y]) + Zeros(2)
  {
    hide BitsOf, SextetsBits, BitsOfBytes, Zeros;
    TwoSextets(x / 4, x % 4 * 16 + y / 16);
    OneSextet(y % 16 * 4 + 0);
    SextetsBitsAppend([x / 4, x % 4 * 16 + y / 16], [y % 16 * 4 + 0]);
    OneByteBits(x);
    OneByteBits(y);
    BytesBitsAppend([x], [y]);
    assert [x] + [y] == [x, y];
    assert GroupSextets([x, y]) == [x / 4, x % 4 * 16 + y / 16] + [y % 16 * 4 + 0];
    ByteBits(x);
    ByteBits(y);
    SextetBits(x % 4, y / 16, 4);
    SextetBits(y % 16, 0, 2);
    NoBits(2);
    Regroup(BitsOf(x / 4, 6), BitsOf(x % 4, 2), BitsOf(y / 16, 4), BitsOf(y % 16, 4), Zeros(2), []);
    assert Zeros(2) + [] == Zeros(2) && (BitsOf(y % 16, 4) + Zeros(2)) + [] == BitsOf(y % 16, 4) + Zeros(2);
  }

  lemma ThreeByteGroup(x: Byte, y: Byte, z: Byte)
    ensures SextetsBits(GroupSextets([x, y, z])) == BitsOfBytes([x, y, z])
  {
    hide BitsOf, SextetsBits, BitsOfBytes;
    TwoSextets(x / 4, x % 4 * 16 + y / 16);
    TwoSextets(y % 16 * 4 + z / 64, z % 64);
    SextetsBitsAppend([x / 4, x % 4 * 16 + y / 16], [y % 16 * 4 + z / 64, z % 64]);
    BytesOfThree(x, y, z);
    assert GroupSextets([x, y, z]) == [x / 4, x % 4 * 16 + y / 16] + [y % 16 * 4 + z / 64, z % 64];
    SextetBits(x % 4, y / 16, 4);
    SextetBits(y % 16, z / 64, 2);
    Regroup(BitsOf(x / 4, 6), BitsOf(x % 4, 2), BitsOf(y / 16, 4), BitsOf(y % 16, 4), BitsOf(z / 64, 2), BitsOf(z % 64, 6));
  }

  lemma BytesOfThree(x: Byte, y: Byte, z: Byte)
    ensures BitsOfBytes([x, y, z])
         == (BitsOf(x / 4, 6) + BitsOf(x % 4, 2)) + (BitsOf(y / 16, 4) + BitsOf(y % 16, 4)) + (BitsOf(z / 64, 2) + BitsOf(z % 64, 6))
  {
    hide BitsOf, BitsOfBytes;
    OneByteBits(x);
    OneByteBits(y);
    OneByteBits(z);
    BytesBitsAppend([x], [y]);
    BytesBitsAppend([x, y], [z]);
    assert [x] + [y] == [x, y] && [x, y] + [z] == [x, y, z];
    ByteBits(x);
    ByteBits(y);
    ByteBits(z);
  }

  lemma Regroup(a: seq<bool>, b: seq<bool>, c: seq<bool>, d: seq<bool>, e: seq<bool>, f: seq<bool>)
    ensures (a + (b + c)) + ((d + e) + f) == (a + b) + (c + d) + (e + f)
  {
  }

  lemma GroupBits(b: seq<Byte>)
    requires 1 <= |b| <= 3
    ensures SextetsBits(GroupSextets(b)) == BitsOfBytes(b) + Zeros(2 * (3 - |b|))
  {
    hide SextetsBits, BitsOfBytes, GroupSextets, Zeros, BitsOf;
    if |b| == 1 {
      assert b == [b[0]];
      OneByteGroup(b[0]);
    } else if |b| == 2 {
      assert b == [b[0], b[1]];
      TwoByteGroup(b[0], b[1]);
    } else {
      assert b == [b[0], b[1], b[2]];
      ThreeByteGroup(b[0], b[1], b[2]);
      NoBitsAtAll();
    }
  }

  function SextetsOf(bytes: seq<Byte>): seq<Sextet> {
    if bytes == [] then []
    else if |bytes| < 3 then GroupSextets(bytes)
    else GroupSextets(bytes[..3]) + SextetsOf(bytes[3..])
  }

  lemma {:induction false} PlainIsSextets(bytes: seq<Byte>)
    ensures |Plain(bytes)| == |SextetsOf(bytes)|
    ensures forall i :: 0 <= i < |Plain(bytes)| ==> Plain(bytes)[i] == StandardChar(SextetsOf(bytes)[i])
  {
    hide Group, GroupSextets, StandardChar;
    if bytes != [] {
      GroupIsSextets(if |bytes| < 3 then bytes else bytes[..3]);
    }
    if |bytes| >= 3 {
      PlainIsSextets(bytes[3..]);
    }
  }

  lemma {:induction false} SextetsHoldBits(bytes: seq<Byte>)
    ensures SextetsBits(SextetsOf(bytes)) == BitsOfBytes(bytes) + Zeros(2 * ((3 - |bytes| % 3) % 3))
  {
    hide SextetsBits, BitsOfBytes, GroupSextets;
    if bytes == [] {
      NoBitsAtAll();
    } else if |bytes| < 3 {
      GroupBits(bytes);
    } else {
      assert bytes == bytes[..3] + bytes[3..];
      GroupBits(bytes[..3]);
      SextetsHoldBits(bytes[3..]);
      SextetsBitsAppend(GroupSextets(bytes[..3]), SextetsOf(bytes[3..]));
      BytesBitsAppend(bytes[..3], bytes[3..]);
      assert |bytes[3..]| % 3 == |bytes| % 3;
      assert Zeros(0) == [];
    }
  }

  lemma NoBitsAtAll()
    ensures SextetsBits([]) == [] && BitsOfBytes([]) == [] && Zeros(0) == []
  {
  }

  /**
   * The encoding against the standard: the six-bit values of the characters, in a row, are the bits of the bytes,
   * in a row, filled up with zeros to a whole number of characters.
   */
  lemma EncodesTheBits(bytes: seq<Byte>)
    ensures AllUrlSafe(EncodeUrlSafe(bytes))
    ensures BitsOfText(EncodeUrlSafe(bytes)) == BitsOfBytes(bytes) + Zeros(2 * ((3 - |bytes| % 3) % 3))
  {
    hide Plain, EncodeUrlSafe, StandardChar, ToUrlChars, AllUrlSafe, BitsOfText, SextetsBits, BitsOfBytes, Zeros;
    EncodeIsPlain(bytes);
    PlainIsSextets(bytes);
    BitsOfSextets(SextetsOf(bytes), Plain(bytes));
    SextetsHoldBits(bytes);
  }

  lemma {:induction false} DecodesUnlessOneOver(s: string)
    requires AllStandard(s)
    ensures DecodeGroups(s).Some? <==> |s| % 4 != 1
  {
    if |s| > 4 {
      DecodesUnlessOneOver(s[4..]);
    }
  }

  /** Which URL-safe texts decode at all: those whose length is not one over a multiple of four. */
  lemma DecodableTexts(value: string)
    requires forall i :: 0 <= i < |value| ==> IsUrlSafeChar(value[i])
    ensures FromBase64Url(value).Some? <==> |value| % 4 != 1
  {
    hide DecodeGroups, Repeat, Replace, Unpad, IsUrlSafeChar;
    var p := Replace(Replace(value, '-', '+'), '_', '/');
    NormalizedIsStandard(value);
    DecodesUnlessOneOver(p);
    PaddedHasNoSpace(p, Padding(p));
    if |p| % 4 != 1 {
      UnpadPadded(p);
    } else {
      OneOverKeepsPadding(p);
    }
  }

  lemma NormalizedIsStandard(value: string)
    requires forall i :: 0 <= i < |value| ==> IsUrlSafeChar(value[i])
    ensures AllStandard(Replace(Replace(value, '-', '+'), '_', '/'))
    ensures |Replace(Replace(value, '-', '+'), '_', '/')| == |value|
  {
  }

  lemma OneOverKeepsPadding(p: string)
    requires |p| % 4 == 1
    ensures !AllStandard(Unpad(p + Repeat('=', Padding(p))))
  {
    var s := p + Repeat('=', 3);
    assert Unpad(s)[|p|] == '=';
  }

  // ----- The launch URL -----

  /** Parsed JSON, as far as the handoff looks into it. */
  datatype Json = Null | Text(text: string) | Other | Object(fields: map<string, Json>)

  predicate IsText(j: Json, key: string) {
    j.Object? && key in j.fields && j.fields[key].Text?
  }

  /** The fields decodeImpersonationHandoff insists on. */
  predicate IsHandoff(j: Json) {
    && IsText(j, "accessToken") && IsText(j, "orgId") && IsText(j, "orgName")
    && IsText(j, "operatorOrgSlug") && IsText(j, "role")
    && "operator" in j.fields && IsText(j.fields["operator"], "id") && IsText(j.fields["operator"], "email")
  }

  /** JSON text as UTF-8 bytes: writing, and parsing that may fail. */
  datatype JsonCodec = JsonCodec(stringify: Json -> seq<Byte>, parse: seq<Byte> -> Option<Json>)

  ghost predicate ParsesItsText(codec: JsonCodec) {
    forall j :: codec.parse(codec.stringify(j)) == Some(j)
  }

  const HASH_PREFIX := "#qp-imp="

  function Encode(codec: JsonCodec, payload: Json): string {
    EncodeUrlSafe(codec.stringify(payload))
  }

  function Decode(codec: JsonCodec, encoded: string): Option<Json> {
    match FromBase64Url(encoded)
    case None => None
    case Some(bytes) =>
      match codec.parse(bytes)
      case None => None
      case Some(j) => if IsHandoff(j) then Some(j) else None
  }

  /** The part of the URL before the hash: one trailing slash off the base, one leading slash onto the path. */
  function Address(appBaseUrl: string, path: string): string {
    var base := if appBaseUrl != [] && appBaseUrl[|appBaseUrl| - 1] == '/' then appBaseUrl[..|appBaseUrl| - 1] else appBaseUrl;
    base + (if path != [] && path[0] == '/' then path else "/" + path)
  }

  /** buildImpersonationLaunchUrl. */
  function BuildLaunchUrl(codec: JsonCodec, appBaseUrl: string, path: string, payload: Json): string {
    Address(appBaseUrl, path) + HASH_PREFIX + Encode(codec, payload)
  }

  /** `location.hash`: from the first `#` on. */
  function HashOf(url: string): string {
    if url == [] then "" else if url[0] == '#' then url else HashOf(url[1..])
  }

  /** parseImpersonationHandoffFromHash. */
  function ParseFromHash(codec: JsonCodec, hash: string): Option<Json> {
    if HASH_PREFIX <= hash then Decode(codec, hash[|HASH_PREFIX|..]) else None
  }

  lemma {:induction false} HashAfter(address: string, rest: string)
    requires '#' !in address && rest != [] && rest[0] == '#'
    ensures HashOf(address + rest) == rest
  {
    if address == [] {
      assert address + rest == rest;
    } else {
      assert (address + rest)[1..] == address[1..] + rest;
      HashAfter(address[1..], rest);
    }
  }

  /** A hash that starts inside the address still contains the `#` of the handoff. */
  lemma {:induction false} HashInside(address: string, rest: string)
    requires '#' in address && rest != [] && rest[0] == '#'
    ensures |HashOf(address + rest)| > |rest|
    ensures HashOf(address + rest)[|HashOf(address + rest)| - |rest|..] == rest
  {
    var url := address + rest;
    if url[0] == '#' {
      assert url[|address|..] == rest;
    } else {
      assert url[1..] == address[1..] + rest;
      assert address == [address[0]] + address[1..];
      HashInside(address[1..], rest);
    }
  }

  lemma {:induction false} HashIsKept(s: string)
    requires '#' in s
    ensures '#' in DropSpaces(s)
  {
    assert s == [s[0]] + s[1..];
    if s[0] != '#' {
      HashIsKept(s[1..]);
      assert s[1..] != [];
    }
  }

  lemma HashSurvivesUnpad(s: string)
    requires '#' in s
    ensures !AllStandard(Unpad(s))
  {
    var i :| 0 <= i < |s| && s[i] == '#';
    assert i < |Unpad(s)| && Unpad(s)[i] == '#';
  }

  lemma ForeignCharFails(value: string, i: nat)
    requires i < |value| && value[i] == '#'
    ensures FromBase64Url(value) == None
  {
    hide DropSpaces, Unpad, AllStandard, DecodeGroups;
    var p := Replace(Replace(value, '-', '+'), '_', '/');
    var s := p + Repeat('=', Padding(p));
    assert s[i] == '#';
    HashIsKept(s);
    HashSurvivesUnpad(DropSpaces(s));
  }

  /**
   * Reading the hash of a built launch URL gives the payload back, or nothing when the payload is no handoff,
   * exactly when neither base nor path brings a `#` of its own; otherwise nothing is ever read.
   */
  lemma LaunchUrlRoundTrip(codec: JsonCodec, appBaseUrl: string, path: string, payload: Json)
    requires ParsesItsText(codec)
    ensures ParseFromHash(codec, HashOf(BuildLaunchUrl(codec, appBaseUrl, path, payload)))
         == if '#' !in appBaseUrl && '#' !in path && IsHandoff(payload) then Some(payload) else None
  {
    var address, rest := Address(appBaseUrl, path), HASH_PREFIX + Encode(codec, payload);
    assert BuildLaunchUrl(codec, appBaseUrl, path, payload) == address + rest;
    assert rest[..|HASH_PREFIX|] == HASH_PREFIX && rest[|HASH_PREFIX|..] == Encode(codec, payload);
    HashInAddress(appBaseUrl, path);
    if '#' !in address {
      HashAfter(address, rest);
      Base64UrlRoundTrip(codec.stringify(payload));
    } else {
      HashInside(address, rest);
      var hash := HashOf(address + rest);
      var at := |hash| - |rest|;
      assert hash[at] == hash[at..][0] == '#';
      if HASH_PREFIX <= hash {
        assert at >= |HASH_PREFIX| by { PrefixHasOneHash(hash, at); }
        assert hash[|HASH_PREFIX|..][at - |HASH_PREFIX|] == '#';
        ForeignCharFails(hash[|HASH_PREFIX|..], at - |HASH_PREFIX|);
      }
    }
  }

  lemma PrefixHasOneHash(hash: string, at: nat)
    requires HASH_PREFIX <= hash && 0 < at < |hash| && hash[at] == '#'
    ensures at >= |HASH_PREFIX|
  {
    assert forall k :: 0 < k < |HASH_PREFIX| ==> HASH_PREFIX[k] != '#';
    assert forall k :: 0 < k < |HASH_PREFIX| ==> hash[k] == HASH_PREFIX[k];
  }

  lemma HashInAddress(appBaseUrl: string, path: string)
    ensures '#' in Address(appBaseUrl, path) <==> '#' in appBaseUrl || '#' in path
  {
    if appBaseUrl != [] {
      assert appBaseUrl == appBaseUrl[..|appBaseUrl| - 1] + [appBaseUrl[|appBaseUrl| - 1]];
    }
  }

  /** The URL in full: base without its trailing slash, path with a leading slash, and the encoded payload in the hash. */
  lemma LaunchUrlParts(codec: JsonCodec, base: string, rest: string, payload: Json)
    ensures var url := base + "/" + rest + "#qp-imp=" + EncodeUrlSafe(codec.stringify(payload));
      && (base == "" || base[|base| - 1] != '/' ==> BuildLaunchUrl(codec, base, "/" + rest, payload) == url)
      && BuildLaunchUrl(codec, base + "/", "/" + rest, payload) == url
      && (rest == "" || rest[0] != '/' ==> BuildLaunchUrl(codec, base + "/", rest, payload) == url)
      && (rest == "" || rest[0] != '/' ==>
            BuildLaunchUrl(codec, base, rest, payload) == BuildLaunchUrl(codec, base, "/" + rest, payload))
  {
    hide EncodeUrlSafe;
    assert (base + "/")[..|base + "/"| - 1] == base;
    assert base + ("/" + rest) == base + "/" + rest;
  }

  /** The fields that a payload must have as text to be read back. */
  lemma ReadBackIff(codec: JsonCodec, payload: Json)
    requires ParsesItsText(codec)
    ensures var f := if payload.Object? then payload.fields else map[];
      var o := if "operator" in f && f["operator"].Object? then f["operator"].fields else map[];
      ParseFromHash(codec, "#qp-imp=" + EncodeUrlSafe(codec.stringify(payload)))
      == if && "accessToken" in f && f["accessToken"].Text? && "orgId" in f && f["orgId"].Text?
            && "orgName" in f && f["orgName"].Text? && "operatorOrgSlug" in f && f["operatorOrgSlug"].Text?
            && "role" in f && f["role"].Text? && "id" in o && o["id"].Text? && "email" in o && o["email"].Text?
         then Some(payload) else None
  {
    hide EncodeUrlSafe, FromBase64Url;
    var text := EncodeUrlSafe(codec.stringify(payload));
    Base64UrlRoundTrip(codec.stringify(payload));
    assert ("#qp-imp=" + text)[|HASH_PREFIX|..] == text;
  }

  /** A hash that does not start with the handoff key is not read at all. */
  lemma OtherHashIgnored(codec: JsonCodec, hash: string)
    requires !("#qp-imp=" <= hash)
    ensures ParseFromHash(codec, hash) == None
  {
  }
}

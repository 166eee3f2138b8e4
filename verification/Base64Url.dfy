/** `bufferToBase64Url` of src/auth/auth.service.ts: standard Base64 rewritten in three steps, against
    the unpadded encoding of section 5 of RFC 4648 stated on bit strings. */
module Base64Url {
  import opened Common

  type Byte = x: int | 0 <= x < 256
  type Sextet = x: int | 0 <= x < 64

  // --- the code under study -----------------------------------------------------------------------

  // The alphabet of section 4 of RFC 4648.
  function StandardChar(v: Sextet): char {
    if v < 26 then ('A' as int + v) as char
    else if v < 52 then ('a' as int + (v - 26)) as char
    else if v < 62 then ('0' as int + (v - 52)) as char
    else if v == 62 then '+'
    else '/'
  }

  // `buffer.toString('base64')`: three bytes to four characters, padded with '='.
  function StandardEncode(b: seq<Byte>): string {
    if |b| == 0 then ""
    else if |b| == 1 then [StandardChar(b[0] / 4), StandardChar(b[0] % 4 * 16), '=', '=']
    else if |b| == 2 then
      [StandardChar(b[0] / 4), StandardChar(b[0] % 4 * 16 + b[1] / 16), StandardChar(b[1] % 16 * 4), '=']
    else
      [ StandardChar(b[0] / 4), StandardChar(b[0] % 4 * 16 + b[1] / 16),
        StandardChar(b[1] % 16 * 4 + b[2] / 64), StandardChar(b[2] % 64)] + StandardEncode(b[3..])
  }

  // A global `replace` of one character by another.
  function ReplaceAll(s: string, from: char, to: char): (r: string)
    ensures |r| == |s|
    ensures forall i | 0 <= i < |s| :: r[i] == if s[i] == from then to else s[i]
  {
    seq(|s|, i requires 0 <= i < |s| => if s[i] == from then to else s[i])
  }

  // `replace(/=+$/, '')`.
  function StripPadding(s: string): string {
    if s != "" && s[|s| - 1] == '=' then StripPadding(s[..|s| - 1]) else s
  }

  function BufferToBase64Url(b: seq<Byte>): string {
    StripPadding(ReplaceAll(ReplaceAll(StandardEncode(b), '+', '-'), '/', '_'))
  }

  // --- the reference: section 5 of RFC 4648 on bit strings ----------------------------------------

  function Pow2(n: nat): (p: nat)
    ensures p >= 1
  {
    if n == 0 then 1 else 2 * Pow2(n - 1)
  }

  // The `width` lowest bits of a number, most significant first.
  function BitsOf(v: nat, width: nat): (bits: seq<bool>)
    ensures |bits| == width
  {
    if width == 0 then [] else BitsOf(v / 2, width - 1) + [v % 2 == 1]
  }

  function ValueOf(bits: seq<bool>): (v: nat)
    ensures v < Pow2(|bits|)
  {
    if |bits| == 0 then 0
    else 2 * ValueOf(bits[..|bits| - 1]) + if bits[|bits| - 1] then 1 else 0
  }

  // The numbers written one after the other, each in `width` bits.
  function Bits(vs: seq<nat>, width: nat): seq<bool> {
    if |vs| == 0 then [] else BitsOf(vs[0], width) + Bits(vs[1..], width)
  }

  function Zeros(n: nat): (z: seq<bool>)
    ensures |z| == n
  {
    seq(n, _ => false)
  }

  // The bit string cut into groups of `width`, zero bits added on the right of the last one.
  function Groups(bits: seq<bool>, width: nat): (vs: seq<nat>)
    requires width > 0
    ensures forall v | v in vs :: v < Pow2(width)
  {
    if |bits| == 0 then []
    else if |bits| < width then [ValueOf(bits + Zeros(width - |bits|))]
    else [ValueOf(bits[..width])] + Groups(bits[width..], width)
  }

  // The "URL and filename safe" alphabet of section 5.
  function UrlChar(v: Sextet): char {
    if v == 62 then '-' else if v == 63 then '_' else StandardChar(v)
  }

  function UrlValue(c: char): (v: Option<Sextet>) {
    if 'A' <= c <= 'Z' then Some(c as int - 'A' as int)
    else if 'a' <= c <= 'z' then Some(c as int - 'a' as int + 26)
    else if '0' <= c <= '9' then Some(c as int - '0' as int + 52)
    else if c == '-' then Some(62)
    else if c == '_' then Some(63)
    else None
  }

  predicate UrlSafe(s: string) {
    forall c | c in s :: UrlValue(c).Some?
  }

  function Sextets(vs: seq<nat>): (r: seq<Sextet>)
    requires forall v | v in vs :: v < 64
    ensures r == vs
  {
    if |vs| == 0 then []
    else
      assert vs[0] in vs && forall v | v in vs[1..] :: v in vs;
      var first: Sextet := vs[0];
      [first] + Sextets(vs[1..])
  }

  function UrlChars(vs: seq<Sextet>): (s: string)
    ensures |s| == |vs|
    ensures forall i | 0 <= i < |vs| :: s[i] == UrlChar(vs[i])
  {
    seq(|vs|, i requires 0 <= i < |vs| => UrlChar(vs[i]))
  }

  // The bytes' bits in groups of six, each group one character, no padding.
  function Rfc4648Url(b: seq<Byte>): string {
    UrlChars(Sextets(Groups(Bits(b, 8), 6)))
  }

  function UrlValues(s: string): (vs: seq<nat>)
    requires UrlSafe(s)
    ensures |vs| == |s|
    ensures forall i | 0 <= i < |s| :: UrlValue(s[i]) == Some(vs[i])
  {
    seq(|s|, i requires 0 <= i < |s| => assert s[i] in s; UrlValue(s[i]).value)
  }

  // The decoder of the reference: the characters' bits in groups of eight, left-over bits dropped.
  function Rfc4648Decode(s: string): Option<seq<nat>> {
    if !UrlSafe(s) then None
    else
      var bits := Bits(UrlValues(s), 6);
      Some(Groups(bits[..|bits| / 8 * 8], 8))
  }

  // --- numbers and bit strings ----------------------------------------------------------------------

  lemma Powers()
    ensures Pow2(2) == 4 && Pow2(4) == 16 && Pow2(6) == 64 && Pow2(8) == 256
  {
  }

  lemma {:induction false} ValueOfBits(v: nat, width: nat)
    requires v < Pow2(width)
    ensures ValueOf(BitsOf(v, width)) == v
  {
    if width > 0 {
      ValueOfBits(v / 2, width - 1);
      assert BitsOf(v, width)[..width - 1] == BitsOf(v / 2, width - 1);
    }
  }

  lemma {:induction false} BitsOfValue(bits: seq<bool>)
    ensures BitsOf(ValueOf(bits), |bits|) == bits
  {
    if |bits| > 0 {
      var init := bits[..|bits| - 1];
      BitsOfValue(init);
      assert bits == init + [bits[|bits| - 1]];
    }
  }

  lemma {:induction false} ZeroBits(width: nat)
    ensures BitsOf(0, width) == Zeros(width)
  {
    if width > 0 {
      ZeroBits(width - 1);
    }
  }

  // A number's bits are its high part's bits followed by its low part's.
  lemma {:induction false} BitsAppend(hi: nat, lo: nat, j: nat, k: nat)
    requires lo < Pow2(k)
    ensures BitsOf(hi * Pow2(k) + lo, j + k) == BitsOf(hi, j) + BitsOf(lo, k)
  {
    if k == 0 {
      assert hi * Pow2(0) + lo == hi;
    } else {
      var x := hi * Pow2(k - 1);
      assert hi * Pow2(k) == 2 * x;
      BitsAppend(hi, lo / 2, j, k - 1);
      assert (2 * x + lo) / 2 == x + lo / 2 && (2 * x + lo) % 2 == lo % 2;
      assert BitsOf(hi, j) + BitsOf(lo, k) == BitsOf(hi, j) + BitsOf(lo / 2, k - 1) + [lo % 2 == 1];
    }
  }

  lemma {:induction false} BitsLength(vs: seq<nat>, width: nat)
    ensures |Bits(vs, width)| == width * |vs|
  {
    if |vs| > 0 {
      BitsLength(vs[1..], width);
      assert width * |vs| == width + width * |vs[1..]|;
    }
  }

  lemma GroupsCut(bits: seq<bool>, tail: seq<bool>, width: nat)
    requires width > 0 && |bits| == width
    ensures Groups(bits + tail, width) == [ValueOf(bits)] + Groups(tail, width)
  {
  }

  lemma {:induction false} GroupsOfBits(vs: seq<nat>, width: nat, tail: seq<bool>)
    requires width > 0
    requires forall v | v in vs :: v < Pow2(width)
    ensures Groups(Bits(vs, width) + tail, width) == vs + Groups(tail, width)
  {
    if |vs| == 0 {
      assert Bits(vs, width) + tail == tail;
    } else {
      assert vs[0] in vs && forall v | v in vs[1..] :: v in vs;
      GroupsOfBits(vs[1..], width, tail);
      var rest := Bits(vs[1..], width) + tail;
      Associative(BitsOf(vs[0], width), Bits(vs[1..], width), tail);
      GroupsCut(BitsOf(vs[0], width), rest, width);
      ValueOfBits(vs[0], width);
      Associative([vs[0]], vs[1..], Groups(tail, width));
      assert [vs[0]] + vs[1..] == vs;
    }
  }

  // Writing the groups out again gives the bits back, with fewer than `width` zeros added.
  lemma {:induction false} BitsOfGroups(bits: seq<bool>, width: nat) returns (pad: nat)
    requires width > 0
    ensures pad < width
    ensures Bits(Groups(bits, width), width) == bits + Zeros(pad)
  {
    var vs := Groups(bits, width);
    if |bits| == 0 {
      pad := 0;
    } else if |bits| < width {
      pad := width - |bits|;
      BitsOfValue(bits + Zeros(pad));
      assert vs[1..] == [];
      assert Bits(vs, width) == BitsOf(vs[0], width) + [];
    } else {
      pad := BitsOfGroups(bits[width..], width);
      BitsOfValue(bits[..width]);
      assert vs[1..] == Groups(bits[width..], width);
      assert Bits(vs, width) == bits[..width] + (bits[width..] + Zeros(pad));
    }
  }

  // --- the rewritten Base64 is the encoding of the standard ------------------------------------------

  function Rewritten(b: seq<Byte>): string {
    ReplaceAll(ReplaceAll(StandardEncode(b), '+', '-'), '/', '_')
  }

  function Padding(n: nat): string {
    seq((3 - n % 3) % 3, _ => '=')
  }

  lemma Cut(v: nat, hi: nat, lo: nat, p: nat, width: nat, j: nat, k: nat)
    requires p == Pow2(k) && width == j + k && lo < p && v == hi * p + lo
    ensures BitsOf(v, width) == BitsOf(hi, j) + BitsOf(lo, k)
  {
    BitsAppend(hi, lo, j, k);
  }

  // The cuts of a byte, and the two ways a sextet straddles bytes.
  lemma ByteBits6(b: Byte)
    ensures BitsOf(b, 8) == BitsOf(b / 4, 6) + BitsOf(b % 4, 2)
  {
    Powers();
    Cut(b, b / 4, b % 4, 4, 8, 6, 2);
  }

  lemma ByteBits4(b: Byte)
    ensures BitsOf(b, 8) == BitsOf(b / 16, 4) + BitsOf(b % 16, 4)
  {
    Powers();
    Cut(b, b / 16, b % 16, 16, 8, 4, 4);
  }

  lemma ByteBits2(b: Byte)
    ensures BitsOf(b, 8) == BitsOf(b / 64, 2) + BitsOf(b % 64, 6)
  {
    Powers();
    Cut(b, b / 64, b % 64, 64, 8, 2, 6);
  }

  lemma SextetBits2(c: nat, hi: nat, lo: nat)
    requires lo < 16 && c == hi * 16 + lo
    ensures BitsOf(c, 6) == BitsOf(hi, 2) + BitsOf(lo, 4)
  {
    Powers();
    Cut(c, hi, lo, 16, 6, 2, 4);
  }

  lemma SextetBits4(c: nat, hi: nat, lo: nat)
    requires lo < 4 && c == hi * 4 + lo
    ensures BitsOf(c, 6) == BitsOf(hi, 4) + BitsOf(lo, 2)
  {
    Powers();
    Cut(c, hi, lo, 4, 6, 4, 2);
  }

  lemma Regroup2<T>(x: seq<T>, y: seq<T>, a: seq<T>, b: seq<T>, c: seq<T>, d: seq<T>)
    requires x == a + b && y == c + d
    ensures x + y == a + (b + c) + d
  {
  }

  lemma Unroll(v: nat, vs: seq<nat>, width: nat)
    ensures Bits([v] + vs, width) == BitsOf(v, width) + Bits(vs, width)
  {
  }

  lemma Unroll2(x: nat, y: nat, width: nat)
    ensures Bits([x], width) == BitsOf(x, width)
    ensures Bits([x, y], width) == BitsOf(x, width) + BitsOf(y, width)
  {
    assert [x][1..] == [] && [x, y][1..] == [y] && [y][1..] == [];
    assert Bits([y], width) == BitsOf(y, width);
  }

  lemma Unroll3(x: nat, y: nat, z: nat, width: nat)
    ensures Bits([x, y, z], width) == BitsOf(x, width) + BitsOf(y, width) + BitsOf(z, width)
  {
    Unroll2(y, z, width);
    Unroll(x, [y, z], width);
    assert [x] + [y, z] == [x, y, z];
  }

  lemma Unroll4(x: nat, y: nat, z: nat, u: nat, width: nat)
    ensures Bits([x, y, z, u], width)
            == BitsOf(x, width) + BitsOf(y, width) + BitsOf(z, width) + BitsOf(u, width)
  {
    Unroll3(y, z, u, width);
    Unroll(x, [y, z, u], width);
    assert [x] + [y, z, u] == [x, y, z, u];
  }

  // Three bytes and the four sextets they are cut into are the same 24 bits.
  lemma TwoBytes(b0: Byte, b1: Byte, c1: nat)
    requires c1 == b0 % 4 * 16 + b1 / 16
    ensures BitsOf(b0, 8) + BitsOf(b1, 8) == BitsOf(b0 / 4, 6) + BitsOf(c1, 6) + BitsOf(b1 % 16, 4)
  {
    ByteBits6(b0);
    ByteBits4(b1);
    SextetBits2(c1, b0 % 4, b1 / 16);
    Regroup2(BitsOf(b0, 8), BitsOf(b1, 8), BitsOf(b0 / 4, 6), BitsOf(b0 % 4, 2),
             BitsOf(b1 / 16, 4), BitsOf(b1 % 16, 4));
  }

  lemma ThreeBytes(b0: Byte, b1: Byte, b2: Byte, c1: nat, c2: nat)
    requires c1 == b0 % 4 * 16 + b1 / 16 && c2 == b1 % 16 * 4 + b2 / 64
    ensures BitsOf(b0, 8) + BitsOf(b1, 8) + BitsOf(b2, 8)
            == BitsOf(b0 / 4, 6) + BitsOf(c1, 6) + BitsOf(c2, 6) + BitsOf(b2 % 64, 6)
  {
    TwoBytes(b0, b1, c1);
    ByteBits2(b2);
    SextetBits4(c2, b1 % 16, b2 / 64);
    Regroup2(BitsOf(b0, 8) + BitsOf(b1, 8), BitsOf(b2, 8), BitsOf(b0 / 4, 6) + BitsOf(c1, 6),
             BitsOf(b1 % 16, 4), BitsOf(b2 / 64, 2), BitsOf(b2 % 64, 6));
  }

  lemma ThreeBytesBits(b0: Byte, b1: Byte, b2: Byte, c1: nat, c2: nat)
    requires c1 == b0 % 4 * 16 + b1 / 16 && c2 == b1 % 16 * 4 + b2 / 64
    ensures Bits([b0, b1, b2], 8) == Bits([b0 / 4, c1, c2, b2 % 64], 6)
  {
    ThreeBytes(b0, b1, b2, c1, c2);
    Unroll3(b0, b1, b2, 8);
    Unroll4(b0 / 4, c1, c2, b2 % 64, 6);
  }

  // A last group of two or four bits is completed by zero bits.
  lemma LastGroup(hi: nat, k: nat)
    requires (k == 2 && hi < 4) || (k == 4 && hi < 16)
    ensures Groups(BitsOf(hi, k), 6) == [if k == 2 then hi * 16 else hi * 4]
  {
    assert Pow2(6) == 64 by {
      Powers();
    }
    if k == 2 {
      ZeroBits(4);
      SextetBits2(hi * 16, hi, 0);
      ValueOfBits(hi * 16, 6);
    } else {
      ZeroBits(2);
      SextetBits4(hi * 4, hi, 0);
      ValueOfBits(hi * 4, 6);
    }
  }

  lemma LastByte(b0: Byte)
    ensures Groups(Bits([b0], 8), 6) == [b0 / 4, b0 % 4 * 16]
  {
    ByteBits6(b0);
    Unroll2(b0, 0, 8);
    Unroll2(b0 / 4, 0, 6);
    LastGroup(b0 % 4, 2);
    Powers();
    GroupsOfBits([b0 / 4], 6, BitsOf(b0 % 4, 2));
  }

  lemma LastTwoBytes(b0: Byte, b1: Byte)
    ensures Groups(Bits([b0, b1], 8), 6) == [b0 / 4, b0 % 4 * 16 + b1 / 16, b1 % 16 * 4]
  {
    var c0, c1, tail := b0 / 4, b0 % 4 * 16 + b1 / 16, BitsOf(b1 % 16, 4);
    TwoBytes(b0, b1, c1);
    assert Bits([b0, b1], 8) == Bits([c0, c1], 6) + tail by {
      Unroll2(b0, b1, 8);
      Unroll2(c0, c1, 6);
    }
    LastTwoGroups(c0, c1, b1 % 16);
  }

  lemma LastTwoGroups(c0: Sextet, c1: Sextet, hi: nat)
    requires hi < 16
    ensures Groups(Bits([c0, c1], 6) + BitsOf(hi, 4), 6) == [c0, c1, hi * 4]
  {
    LastGroup(hi, 4);
    Powers();
    GroupsOfBits([c0, c1], 6, BitsOf(hi, 4));
  }

  lemma {:induction false} BitsConcat(vs: seq<nat>, ws: seq<nat>, width: nat)
    ensures Bits(vs + ws, width) == Bits(vs, width) + Bits(ws, width)
  {
    if |vs| == 0 {
      assert vs + ws == ws;
    } else {
      BitsConcat(vs[1..], ws, width);
      assert (vs + ws)[1..] == vs[1..] + ws;
      Associative(BitsOf(vs[0], width), Bits(vs[1..], width), Bits(ws, width));
    }
  }

  function FourSextets(b0: Byte, b1: Byte, b2: Byte): seq<Sextet> {
    [b0 / 4, b0 % 4 * 16 + b1 / 16, b1 % 16 * 4 + b2 / 64, b2 % 64]
  }

  // The standard's encoding takes three bytes at a time as well.
  lemma RfcStep(b0: Byte, b1: Byte, b2: Byte, rest: seq<Byte>)
    ensures Rfc4648Url([b0, b1, b2] + rest) == UrlChars(FourSextets(b0, b1, b2)) + Rfc4648Url(rest)
  {
    assert Pow2(6) == 64 by {
      Powers();
    }
    GroupsStep(b0, b1, b2, rest);
    UrlCharsAppend(FourSextets(b0, b1, b2), Sextets(Groups(Bits(rest, 8), 6)));
  }

  lemma UrlCharsAppend(vs: seq<Sextet>, ws: seq<Sextet>)
    ensures UrlChars(vs + ws) == UrlChars(vs) + UrlChars(ws)
  {
  }

  lemma GroupsStep(b0: Byte, b1: Byte, b2: Byte, rest: seq<Byte>)
    ensures Groups(Bits([b0, b1, b2] + rest, 8), 6) == FourSextets(b0, b1, b2) + Groups(Bits(rest, 8), 6)
  {
    var four := FourSextets(b0, b1, b2);
    assert Bits([b0, b1, b2], 8) == Bits(four, 6) by {
      ThreeBytesBits(b0, b1, b2, four[1], four[2]);
      assert four == [b0 / 4, four[1], four[2], b2 % 64];
    }
    BitsConcat([b0, b1, b2], rest, 8);
    assert Pow2(6) == 64 by {
      Powers();
    }
    GroupsOfBits(four, 6, Bits(rest, 8));
  }

  lemma RewrittenStep(b0: Byte, b1: Byte, b2: Byte, rest: seq<Byte>)
    ensures Rewritten([b0, b1, b2] + rest) == UrlChars(FourSextets(b0, b1, b2)) + Rewritten(rest)
  {
    assert ([b0, b1, b2] + rest)[3..] == rest;
  }

  lemma RewrittenOne(b0: Byte)
    ensures Rewritten([b0]) == UrlChars([b0 / 4, b0 % 4 * 16]) + Padding(1)
  {
  }

  lemma RewrittenTwo(b0: Byte, b1: Byte)
    ensures Rewritten([b0, b1]) == UrlChars([b0 / 4, b0 % 4 * 16 + b1 / 16, b1 % 16 * 4]) + Padding(2)
  {
  }

  lemma PaddedStep(b0: Byte, b1: Byte, b2: Byte, rest: seq<Byte>)
    requires Rewritten(rest) == Rfc4648Url(rest) + Padding(|rest|)
    ensures Rewritten([b0, b1, b2] + rest) == Rfc4648Url([b0, b1, b2] + rest) + Padding(|rest| + 3)
  {
    var four := UrlChars(FourSextets(b0, b1, b2));
    RewrittenStep(b0, b1, b2, rest);
    RfcStep(b0, b1, b2, rest);
    assert Padding(|rest| + 3) == Padding(|rest|);
    Associative(four, Rfc4648Url(rest), Padding(|rest|));
  }

  // Before the padding is stripped, the rewritten text is the standard's encoding and its padding.
  lemma {:induction false} RewrittenIsPadded(b: seq<Byte>)
    ensures Rewritten(b) == Rfc4648Url(b) + Padding(|b|)
  {
    if |b| == 0 {
    } else if |b| == 1 {
      assert b == [b[0]];
      RewrittenOne(b[0]);
      LastByte(b[0]);
    } else if |b| == 2 {
      assert b == [b[0], b[1]];
      RewrittenTwo(b[0], b[1]);
      LastTwoBytes(b[0], b[1]);
    } else {
      RewrittenIsPadded(b[3..]);
      PaddedStep(b[0], b[1], b[2], b[3..]);
      assert b == [b[0], b[1], b[2]] + b[3..];
    }
  }

  lemma {:induction false} StripPads(s: string, n: nat)
    requires s == "" || s[|s| - 1] != '='
    ensures StripPadding(s + seq(n, _ => '=')) == s
  {
    var padded := s + seq(n, _ => '=');
    if n == 0 {
      assert padded == s;
    } else {
      StripPads(s, n - 1);
      assert padded[..|padded| - 1] == s + seq(n - 1, _ => '=');
    }
  }

  // --- main results ----------------------------------------------------------------------------------

  // Standard Base64 followed by the three rewrites is the unpadded encoding of RFC 4648, section 5.
  lemma EncodesAsRfc4648(b: seq<Byte>)
    ensures BufferToBase64Url(b) == Rfc4648Url(b)
  {
    RewrittenIsPadded(b);
    StripPads(Rfc4648Url(b), (3 - |b| % 3) % 3);
  }

  // Only characters of the URL-safe alphabet: no separator, padding or standard-only character.
  lemma EncodingIsUrlSafe(b: seq<Byte>)
    ensures UrlSafe(BufferToBase64Url(b))
    ensures forall c | c in BufferToBase64Url(b) :: c != '.' && c != '=' && c != '+' && c != '/'
  {
    EncodesAsRfc4648(b);
  }

  // ceil(4n / 3) characters for n bytes: 72 for the 54 bytes of a secret.
  lemma EncodingLength(b: seq<Byte>)
    ensures |BufferToBase64Url(b)| == (4 * |b| + 2) / 3
  {
    EncodesAsRfc4648(b);
    var pad := BitsOfGroups(Bits(b, 8), 6);
    BitsLength(b, 8);
    BitsLength(Groups(Bits(b, 8), 6), 6);
  }

  lemma ReadBack(vs: seq<Sextet>)
    ensures UrlSafe(UrlChars(vs)) && UrlValues(UrlChars(vs)) == vs
  {
  }

  // Decoding returns the bytes encoded.
  lemma DecodeEncode(b: seq<Byte>)
    ensures Rfc4648Decode(BufferToBase64Url(b)) == Some(b)
  {
    EncodesAsRfc4648(b);
    assert Pow2(6) == 64 by {
      Powers();
    }
    var raw := Bits(b, 8);
    ReadBack(Sextets(Groups(raw, 6)));
    var pad := BitsOfGroups(raw, 6);
    WholeBytes(b, pad);
  }

  // The whole bytes of the bits and fewer than six more are the bytes themselves.
  lemma WholeBytes(b: seq<Byte>, pad: nat)
    requires pad < 6
    ensures var bits := Bits(b, 8) + Zeros(pad); Groups(bits[..|bits| / 8 * 8], 8) == b
  {
    var raw := Bits(b, 8);
    var bits := raw + Zeros(pad);
    BitsLength(b, 8);
    assert |bits| / 8 * 8 == |raw|;
    assert bits[..|raw|] == raw;
    assert Pow2(8) == 256 by {
      Powers();
    }
    GroupsOfBits(b, 8, []);
    assert raw + [] == raw && b + [] == b;
  }

  // So distinct byte strings have distinct encodings.
  lemma EncodingIsInjective(a: seq<Byte>, b: seq<Byte>)
    requires BufferToBase64Url(a) == BufferToBase64Url(b)
    ensures a == b
  {
    DecodeEncode(a);
    DecodeEncode(b);
  }
}

/** Base64 with padding, section 4 of RFC 4648. */
module Base64 {
  import opened Common

  type Byte = x: int | 0 <= x < 256

  type Bytes = seq<Byte>

  type Sextet = x: int | 0 <= x < 64

  function CharOf(n: Sextet): char {
    if n < 26 then 'A' + n as char
    else if n < 52 then 'a' + (n - 26) as char
    else if n < 62 then '0' + (n - 52) as char
    else if n == 62 then '+'
    else '/'
  }

  function SextetOf(c: char): Option<Sextet> {
    if 'A' <= c <= 'Z' then Some(c as int - 'A' as int)
    else if 'a' <= c <= 'z' then Some(c as int - 'a' as int + 26)
    else if '0' <= c <= '9' then Some(c as int - '0' as int + 52)
    else if c == '+' then Some(62)
    else if c == '/' then Some(63)
    else None
  }

  lemma SextetRoundTrip(n: Sextet)
    ensures SextetOf(CharOf(n)) == Some(n)
  {
  }

  /** The four sextets of three bytes. */
  function Sextet0(x: Byte): Sextet {
    x / 4
  }

  function Sextet1(x: Byte, y: Byte): Sextet {
    x % 4 * 16 + y / 16
  }

  function Sextet2(y: Byte, z: Byte): Sextet {
    y % 16 * 4 + z / 64
  }

  function Sextet3(z: Byte): Sextet {
    z % 64
  }

  function EncodeGroup(x: Byte, y: Byte, z: Byte): (g: string)
    ensures |g| == 4
  {
    [CharOf(Sextet0(x)), CharOf(Sextet1(x, y)), CharOf(Sextet2(y, z)), CharOf(Sextet3(z))]
  }

  /** A final group of one or two bytes, filled with zero bits and padded. */
  function EncodeTail(b: Bytes): (g: string)
    requires 1 <= |b| <= 2
    ensures |g| == 4
  {
    if |b| == 1 then [CharOf(Sextet0(b[0])), CharOf(Sextet1(b[0], 0)), '=', '=']
    else [CharOf(Sextet0(b[0])), CharOf(Sextet1(b[0], b[1])), CharOf(Sextet2(b[1], 0)), '=']
  }

  /** `base64.b64encode`. */
  function Encode(b: Bytes): string {
    if b == [] then "" else if |b| < 3 then EncodeTail(b) else EncodeGroup(b[0], b[1], b[2]) + Encode(b[3..])
  }

  /** Three bytes from four sextets. */
  function Join3(s0: Sextet, s1: Sextet, s2: Sextet, s3: Sextet): Bytes {
    [s0 * 4 + s1 / 16, s1 % 16 * 16 + s2 / 4, s2 % 4 * 64 + s3]
  }

  function DecodeQuad(c0: char, c1: char, c2: char, c3: char): Option<Bytes> {
    match (SextetOf(c0), SextetOf(c1), SextetOf(c2), SextetOf(c3))
    case (Some(s0), Some(s1), Some(s2), Some(s3)) => Some(Join3(s0, s1, s2, s3))
    case _ => None
  }

  /** The last group, which alone may be padded. */
  function DecodeLast(c0: char, c1: char, c2: char, c3: char): Option<Bytes> {
    match (SextetOf(c0), SextetOf(c1))
    case (Some(s0), Some(s1)) =>
      if c2 == '=' && c3 == '=' then Some(Join3(s0, s1, 0, 0)[..1])
      else if c3 == '=' then
        (match SextetOf(c2) case Some(s2) => Some(Join3(s0, s1, s2, 0)[..2]) case None => None)
      else DecodeQuad(c0, c1, c2, c3)
    case _ => None
  }

  /** `base64.b64decode(s, validate=True)`; None is `binascii.Error`. */
  function Decode(s: string): Option<Bytes> {
    if s == "" then Some([])
    else if |s| < 4 then None
    else if |s| == 4 then DecodeLast(s[0], s[1], s[2], s[3])
    else
      match (DecodeQuad(s[0], s[1], s[2], s[3]), Decode(s[4..]))
      case (Some(a), Some(rest)) => Some(a + rest)
      case _ => None
  }

  predicate InAlphabet(c: char) {
    SextetOf(c).Some? || c == '='
  }

  lemma PadIsNotData()
    ensures SextetOf('=').None?
  {
  }

  lemma CharsAreInAlphabet(n: Sextet)
    ensures InAlphabet(CharOf(n))
  {
  }

  /** The encoded text is whole groups of alphabet characters, and empty only for no bytes. */
  lemma {:induction false} EncodeAlphabet(b: Bytes)
    ensures forall i | 0 <= i < |Encode(b)| :: InAlphabet(Encode(b)[i])
    ensures |Encode(b)| % 4 == 0 && (Encode(b) == "" <==> b == [])
  {
    hide CharOf, SextetOf, Sextet0, Sextet1, Sextet2, Sextet3;
    if 1 <= |b| <= 2 {
      CharsAreInAlphabet(Sextet0(b[0]));
      CharsAreInAlphabet(Sextet1(b[0], if |b| == 1 then 0 else b[1]));
      CharsAreInAlphabet(Sextet2(if |b| == 1 then 0 else b[1], 0));
    } else if |b| > 2 {
      EncodeAlphabet(b[3..]);
      CharsAreInAlphabet(Sextet0(b[0]));
      CharsAreInAlphabet(Sextet1(b[0], b[1]));
      CharsAreInAlphabet(Sextet2(b[1], b[2]));
      CharsAreInAlphabet(Sextet3(b[2]));
    }
  }

  lemma SplitAndJoin(x: Byte, y: Byte, z: Byte)
    ensures Join3(Sextet0(x), Sextet1(x, y), Sextet2(y, z), Sextet3(z)) == [x, y, z]
  {
    var s1, s2 := Sextet1(x, y), Sextet2(y, z);
    assert s1 / 16 == x % 4 && s1 % 16 == y / 16;
    assert s2 / 4 == y % 16 && s2 % 4 == z / 64;
  }

  lemma ZeroTail()
    ensures Sextet2(0, 0) == 0 && Sextet3(0) == 0
  {
  }

  /** Every whole group decodes back, in the middle and at the end. */
  lemma GroupRoundTrip(x: Byte, y: Byte, z: Byte)
    ensures var g := EncodeGroup(x, y, z);
            DecodeQuad(g[0], g[1], g[2], g[3]) == Some([x, y, z])
              && DecodeLast(g[0], g[1], g[2], g[3]) == Some([x, y, z])
  {
    hide CharOf, SextetOf, Sextet0, Sextet1, Sextet2, Sextet3, Join3;
    PadIsNotData();
    SextetRoundTrip(Sextet0(x));
    SextetRoundTrip(Sextet1(x, y));
    SextetRoundTrip(Sextet2(y, z));
    SextetRoundTrip(Sextet3(z));
    SplitAndJoin(x, y, z);
  }

  /** So does a padded tail. */
  lemma TailRoundTrip(b: Bytes)
    requires 1 <= |b| <= 2
    ensures var g := EncodeTail(b);
            DecodeLast(g[0], g[1], g[2], g[3]) == Some(b)
  {
    hide CharOf, SextetOf, Sextet0, Sextet1, Sextet2, Sextet3, Join3;
    PadIsNotData();
    ZeroTail();
    var y: Byte := if |b| == 1 then 0 else b[1];
    SextetRoundTrip(Sextet0(b[0]));
    SextetRoundTrip(Sextet1(b[0], y));
    SextetRoundTrip(Sextet2(y, 0));
    SplitAndJoin(b[0], y, 0);
    assert [b[0], y, 0][..|b|] == b;
  }

  /** Decoding an encoding gives the bytes back. */
  lemma {:induction false} DecodeEncode(b: Bytes)
    ensures Decode(Encode(b)) == Some(b)
  {
    hide EncodeGroup, EncodeTail, DecodeQuad, DecodeLast;
    if 1 <= |b| <= 2 {
      TailRoundTrip(b);
    } else if |b| > 2 {
      var g := EncodeGroup(b[0], b[1], b[2]);
      GroupRoundTrip(b[0], b[1], b[2]);
      DecodeEncode(b[3..]);
      EncodeAlphabet(b[3..]);
      assert Encode(b)[4..] == Encode(b[3..]);
      assert b == [b[0], b[1], b[2]] + b[3..];
      if b[3..] == [] {
        assert Encode(b) == g;
        assert b == [b[0], b[1], b[2]];
        assert Decode(g) == DecodeLast(g[0], g[1], g[2], g[3]);
      }
    }
  }

  // -------------------------------------------------- the text, from the bytes

  /** Table 1 of section 4 of RFC 4648. */
  lemma AlphabetMeans(n: Sextet)
    ensures n < 26 ==> CharOf(n) == "ABCDEFGHIJKLMNOPQRSTUVWXYZ"[n]
    ensures 26 <= n < 52 ==> CharOf(n) == "abcdefghijklmnopqrstuvwxyz"[n - 26]
    ensures n >= 52 ==> CharOf(n) == "0123456789+/"[n - 52]
  {
    hide SextetOf;
  }

  /** The number that data characters spell to base 64. */
  function Value(g: string): Option<int> {
    if g == "" then Some(0)
    else
      match (Value(g[..|g| - 1]), SextetOf(g[|g| - 1]))
      case (Some(high), Some(low)) => Some(high * 64 + low)
      case _ => None
  }

  /** The number that bytes spell to base 256. */
  function Number(b: Bytes): int {
    if b == [] then 0 else Number(b[..|b| - 1]) * 256 + b[|b| - 1] as int
  }

  /** The group of the bytes left over: zero bits fill the last sextet, `=` the group. */
  predicate IsTail(g: string, b: Bytes) {
    match |b|
    case 0 => g == ""
    case 1 => |g| == 4 && g[2] == g[3] == '=' && Value(g[..2]) == Some(Number(b) * 16)
    case 2 => |g| == 4 && g[3] == '=' && Value(g[..3]) == Some(Number(b) * 4)
    case _ => false
  }

  lemma ValueOfTwo(a: int, b: int)
    requires 0 <= a < 64 && 0 <= b < 64
    ensures Value([CharOf(a), CharOf(b)]) == Some(a * 64 + b)
  {
    hide CharOf, SextetOf;
    SextetRoundTrip(a);
    SextetRoundTrip(b);
    var g := [CharOf(a), CharOf(b)];
    assert g[..1] == [CharOf(a)] && g[..1][..0] == "";
    assert Value(g[..1]) == Some(a);
  }

  lemma ValueOfThree(a: int, b: int, c: int)
    requires 0 <= a < 64 && 0 <= b < 64 && 0 <= c < 64
    ensures Value([CharOf(a), CharOf(b), CharOf(c)]) == Some((a * 64 + b) * 64 + c)
  {
    hide CharOf, SextetOf;
    ValueOfTwo(a, b);
    SextetRoundTrip(c);
    var g := [CharOf(a), CharOf(b), CharOf(c)];
    assert g[..2] == [CharOf(a), CharOf(b)];
  }

  lemma ValueOfFour(a: int, b: int, c: int, d: int)
    requires 0 <= a < 64 && 0 <= b < 64 && 0 <= c < 64 && 0 <= d < 64
    ensures Value([CharOf(a), CharOf(b), CharOf(c), CharOf(d)]) == Some(((a * 64 + b) * 64 + c) * 64 + d)
  {
    hide CharOf, SextetOf;
    ValueOfThree(a, b, c);
    SextetRoundTrip(d);
    var g := [CharOf(a), CharOf(b), CharOf(c), CharOf(d)];
    assert g[..3] == [CharOf(a), CharOf(b), CharOf(c)];
  }

  lemma NothingLeft()
    ensures IsTail("", [])
  {
  }

  lemma NumberOfThree(x: Byte, y: Byte, z: Byte)
    ensures Number([x]) == x && Number([x, y]) == 256 * (x as int) + y as int
    ensures Number([x, y, z]) == 256 * Number([x, y]) + z as int
  {
    assert [x, y, z][..2] == [x, y] && [x, y][..1] == [x] && [x][..0] == [];
  }

  lemma SextetsSpell(x: Byte, y: Byte, z: Byte)
    ensures Sextet0(x) * 64 + Sextet1(x, y) == 16 * (x as int) + y / 16
    ensures 64 * (y / 16) + Sextet2(y, z) == 4 * (y as int) + z / 64
    ensures 64 * (z / 64) + Sextet3(z) == z as int
  {
  }

  lemma TailOfOne(x: Byte)
    ensures IsTail(EncodeTail([x]), [x])
  {
    hide CharOf, SextetOf, Sextet0, Sextet1;
    var g := EncodeTail([x]);
    NumberOfThree(x, 0, 0);
    SextetsSpell(x, 0, 0);
    ValueOfTwo(Sextet0(x), Sextet1(x, 0));
    assert g[..2] == [CharOf(Sextet0(x)), CharOf(Sextet1(x, 0))];
  }

  lemma TailOfTwo(x: Byte, y: Byte)
    ensures IsTail(EncodeTail([x, y]), [x, y])
  {
    hide CharOf, SextetOf, Sextet0, Sextet1, Sextet2;
    var g := EncodeTail([x, y]);
    NumberOfThree(x, y, 0);
    SextetsSpell(x, y, 0);
    ValueOfThree(Sextet0(x), Sextet1(x, y), Sextet2(y, 0));
    assert g[..3] == [CharOf(Sextet0(x)), CharOf(Sextet1(x, y)), CharOf(Sextet2(y, 0))];
  }

  lemma TailMeans(b: Bytes)
    requires 1 <= |b| <= 2
    ensures IsTail(EncodeTail(b), b)
  {
    hide IsTail, EncodeTail;
    if |b| == 1 {
      TailOfOne(b[0]);
      assert b == [b[0]];
    } else {
      TailOfTwo(b[0], b[1]);
      assert b == [b[0], b[1]];
    }
  }

  lemma GroupMeans(x: Byte, y: Byte, z: Byte)
    ensures Value(EncodeGroup(x, y, z)) == Some(Number([x, y, z]))
  {
    hide CharOf, SextetOf, Sextet0, Sextet1, Sextet2, Sextet3;
    SextetsSpell(x, y, z);
    ValueOfFour(Sextet0(x), Sextet1(x, y), Sextet2(y, z), Sextet3(z));
    NumberOfThree(x, y, z);
  }

  /**
   The encoding, group by group: four characters spell the number that three bytes spell to base 256, and the bytes left
   over make a padded group.
   */
  lemma {:induction false} EncodeMeans(b: Bytes, j: nat)
    requires 3 * j <= |b|
    ensures 4 * j <= |Encode(b)|
    ensures |b| - 3 * j >= 3 ==>
              && |Encode(b)| >= 4 * j + 4
              && Value(Encode(b)[4 * j..4 * j + 4]) == Some(Number(b[3 * j..3 * j + 3]))
    ensures |b| - 3 * j < 3 ==> IsTail(Encode(b)[4 * j..], b[3 * j..])
    decreases j
  {
    hide CharOf, SextetOf, IsTail, Value;
    if j > 0 {
      var rest := Encode(b[3..]);
      EncodeMeans(b[3..], j - 1);
      assert Encode(b)[4..] == rest;
      assert b[3..][3 * (j - 1)..] == b[3 * j..];
      assert Encode(b)[4 * j..] == rest[4 * (j - 1)..];
      if |b| - 3 * j >= 3 {
        assert b[3..][3 * (j - 1)..3 * (j - 1) + 3] == b[3 * j..3 * j + 3];
        assert Encode(b)[4 * j..4 * j + 4] == rest[4 * (j - 1)..4 * (j - 1) + 4];
      }
    } else if |b| >= 3 {
      GroupMeans(b[0], b[1], b[2]);
      assert b[..3] == [b[0], b[1], b[2]];
      assert Encode(b)[..4] == EncodeGroup(b[0], b[1], b[2]);
    } else {
      assert b[0..] == b && Encode(b)[0..] == Encode(b);
      if b == [] {
        NothingLeft();
      } else {
        TailMeans(b);
      }
    }
  }

  /** Data characters throughout, except that the last one or two may be padding. */
  predicate IsPaddedText(s: string) {
    && |s| % 4 == 0
    && forall i | 0 <= i < |s| ::
         SextetOf(s[i]).Some? || (s[i] == '=' && i >= |s| - 2 && s[|s| - 1] == '=')
  }

  lemma LastGroupIff(s: string)
    requires |s| == 4
    ensures DecodeLast(s[0], s[1], s[2], s[3]).Some? <==> IsPaddedText(s)
  {
    hide SextetOf;
    PadIsNotData();
  }

  /** Decoding accepts exactly whole groups of data characters with at most two characters of padding at the end. */
  lemma {:induction false} DecodeAcceptsIff(s: string)
    ensures Decode(s).Some? <==> IsPaddedText(s)
  {
    hide SextetOf, DecodeLast;
    PadIsNotData();
    if |s| == 4 {
      LastGroupIff(s);
    } else if |s| > 4 {
      DecodeAcceptsIff(s[4..]);
      assert forall i | 4 <= i < |s| :: s[i] == s[4..][i - 4];
      assert s[|s| - 1] == s[4..][|s| - 5];
      assert IsPaddedText(s) <==>
             IsPaddedText(s[4..]) && forall i | 0 <= i < 4 :: SextetOf(s[i]).Some?;
    }
  }

  /** The test vectors of section 10 of RFC 4648. */
  lemma TestVectors()
    ensures Encode([102]) == "Zg==" && Encode([102, 111]) == "Zm8=" && Encode([102, 111, 111]) == "Zm9v"
    ensures Encode([102, 111, 111, 98]) == "Zm9vYg==" && Encode([102, 111, 111, 98, 97]) == "Zm9vYmE="
    ensures Encode([102, 111, 111, 98, 97, 114]) == "Zm9vYmFy"
  {
    assert [102, 111, 111, 98][3..] == [98];
    assert [102, 111, 111, 98, 97][3..] == [98, 97];
    assert [102, 111, 111, 98, 97, 114][3..] == [98, 97, 114];
    assert [102, 111, 111][3..] == [] && [98, 97, 114][3..] == [];
    assert "Zm9v" + "" == "Zm9v" && "Zm9v" + "Yg==" == "Zm9vYg==" && "Zm9v" + "YmE=" == "Zm9vYmE=";
    assert "YmFy" + "" == "YmFy" && "Zm9v" + "YmFy" == "Zm9vYmFy";
  }
}

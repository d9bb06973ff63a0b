/** Unpadded base64url, section 5 of RFC 4648, as the strict decoder of the services has it: no
    padding, no other characters, and no stray bits in the last character. */
module Base64Url {
  import opened Strings

  type Byte = b: int | 0 <= b < 256
  type Bytes = seq<Byte>
  type Sextet = v: int | 0 <= v < 64

  function CharOf(v: Sextet): char {
    if v < 26 then ('A' as int + v) as char
    else if v < 52 then ('a' as int + v - 26) as char
    else if v < 62 then ('0' as int + v - 52) as char
    else if v == 62 then '-'
    else '_'
  }

  function ValueOf(c: char): Option<Sextet> {
    if 'A' <= c <= 'Z' then Some(c as int - 'A' as int)
    else if 'a' <= c <= 'z' then Some(c as int - 'a' as int + 26)
    else if '0' <= c <= '9' then Some(c as int - '0' as int + 52)
    else if c == '-' then Some(62)
    else if c == '_' then Some(63)
    else None
  }

  lemma CharsAndValues(v: Sextet, c: char)
    ensures ValueOf(CharOf(v)) == Some(v) && CharOf(v) != '.'
    ensures ValueOf(c).Some? ==> CharOf(ValueOf(c).value) == c
  {}

  /** The table of section 5 of RFC 4648: three runs of consecutive characters, hyphen, underscore. */
  lemma AlphabetIsTheTable(v: Sextet)
    ensures CharOf(0) == 'A' && CharOf(26) == 'a' && CharOf(52) == '0' && CharOf(62) == '-' && CharOf(63) == '_'
    ensures v !in {25, 51, 61, 62, 63} ==> CharOf(v + 1) as int == CharOf(v) as int + 1
  {}

  datatype Group = Group(a: Sextet, b: Sextet, c: Sextet, d: Sextet)
  datatype Block = Block(x: Byte, y: Byte, z: Byte)

  /** 24 bits as four sextets and as three bytes. */
  function Sextets(k: Block): Group {
    Group(k.x / 4, k.x % 4 * 16 + k.y / 16, k.y % 16 * 4 + k.z / 64, k.z % 64)
  }

  function Octets(g: Group): Block {
    Block(g.a * 4 + g.b / 16, g.b % 16 * 16 + g.c / 4, g.c % 4 * 64 + g.d)
  }

  /** A short last block is padded with zero bits, and its text stops at the last sextet with data. */
  function Encode(bs: Bytes): string {
    if |bs| == 0 then ""
    else if |bs| == 1 then var g := Sextets(Block(bs[0], 0, 0)); [CharOf(g.a), CharOf(g.b)]
    else if |bs| == 2 then var g := Sextets(Block(bs[0], bs[1], 0)); [CharOf(g.a), CharOf(g.b), CharOf(g.c)]
    else
      var g := Sextets(Block(bs[0], bs[1], bs[2]));
      [CharOf(g.a), CharOf(g.b), CharOf(g.c), CharOf(g.d)] + Encode(bs[3..])
  }

  function ValueAt(s: string, i: nat): Option<Sextet> {
    if i < |s| then ValueOf(s[i]) else Some(0)
  }

  function GroupOf(s: string): Option<Group> {
    match (ValueAt(s, 0), ValueAt(s, 1), ValueAt(s, 2), ValueAt(s, 3))
    case (Some(a), Some(b), Some(c), Some(d)) => Some(Group(a, b, c, d))
    case _ => None
  }

  function Decode(s: string): Option<Bytes> {
    if |s| == 0 then Some([])
    else if |s| == 1 || GroupOf(s).None? then None
    else
      var k := Octets(GroupOf(s).value);
      if |s| == 2 then if k.y == 0 then Some([k.x]) else None
      else if |s| == 3 then if k.z == 0 then Some([k.x, k.y]) else None
      else match Decode(s[4..])
        case Some(rest) => Some([k.x, k.y, k.z] + rest)
        case None => None
  }

  lemma Regroup(k: Block, g: Group)
    ensures Octets(Sextets(k)) == k && Sextets(Octets(g)) == g
  {
    assert Octets(Sextets(k)).x == k.x;
    assert Octets(Sextets(k)).y == k.y;
    assert Octets(Sextets(k)).z == k.z;
  }

  lemma PaddedSextets(k: Block)
    ensures k.z == 0 ==> Sextets(k).d == 0
    ensures k.y == k.z == 0 ==> Sextets(k).c == 0
  {}

  lemma PaddedOctets(g: Group)
    ensures g.c == g.d == 0 ==> Octets(g).z == 0
  {}

  /** Reading a group back from its text, of which trailing zero sextets may be missing. */
  lemma GroupOfChars(s: string, g: Group)
    requires |s| >= 2 && s[0] == CharOf(g.a) && s[1] == CharOf(g.b)
    requires if |s| > 2 then s[2] == CharOf(g.c) else g.c == 0
    requires if |s| > 3 then s[3] == CharOf(g.d) else g.d == 0
    ensures GroupOf(s) == Some(g)
  {
    CharsAndValues(g.a, 'A'); CharsAndValues(g.b, 'A'); CharsAndValues(g.c, 'A'); CharsAndValues(g.d, 'A');
  }

  lemma CharsOfGroup(s: string)
    requires |s| >= 2 && GroupOf(s).Some?
    ensures var g := GroupOf(s).value;
            && s[0] == CharOf(g.a) && s[1] == CharOf(g.b)
            && (if |s| > 2 then s[2] == CharOf(g.c) else g.c == 0)
            && (if |s| > 3 then s[3] == CharOf(g.d) else g.d == 0)
  {
    CharsAndValues(0, s[0]); CharsAndValues(0, s[1]);
    if |s| > 2 { CharsAndValues(0, s[2]); }
    if |s| > 3 { CharsAndValues(0, s[3]); }
  }

  function FirstBlock(bs: Bytes): Block
    requires bs != []
  {
    Block(bs[0], if |bs| > 1 then bs[1] else 0, if |bs| > 2 then bs[2] else 0)
  }

  lemma EncodedGroup(bs: Bytes)
    requires bs != []
    ensures |Encode(bs)| >= 2 && GroupOf(Encode(bs)) == Some(Sextets(FirstBlock(bs)))
  {
    PaddedSextets(FirstBlock(bs));
    GroupOfChars(Encode(bs), Sextets(FirstBlock(bs)));
  }

  lemma DecodeFrom(s: string, k: Block)
    requires |s| >= 2 && GroupOf(s).Some? && Octets(GroupOf(s).value) == k
    ensures |s| == 2 && k.y == 0 ==> Decode(s) == Some([k.x])
    ensures |s| == 3 && k.z == 0 ==> Decode(s) == Some([k.x, k.y])
    ensures |s| > 3 && Decode(s[4..]).Some? ==> Decode(s) == Some([k.x, k.y, k.z] + Decode(s[4..]).value)
  {}

  lemma TextLength(bs: Bytes)
    ensures 0 < |bs| < 3 ==> |Encode(bs)| == |bs| + 1
    ensures |bs| >= 3 ==> |Encode(bs)| >= 4 && Encode(bs)[4..] == Encode(bs[3..])
  {}

  lemma BytesOfBlock(bs: Bytes)
    requires bs != []
    ensures var k := FirstBlock(bs);
            bs == if |bs| == 1 then [k.x] else if |bs| == 2 then [k.x, k.y] else [k.x, k.y, k.z] + bs[3..]
  {}

  lemma OneBlock(bs: Bytes, text: string)
    requires bs != [] && |text| >= 2
    requires GroupOf(text).Some? && Octets(GroupOf(text).value) == FirstBlock(bs)
    requires |bs| < 3 ==> |text| == |bs| + 1
    requires |bs| >= 3 ==> |text| >= 4 && Decode(text[4..]) == Some(bs[3..])
    ensures Decode(text) == Some(bs)
  {
    DecodeFrom(text, FirstBlock(bs));
    BytesOfBlock(bs);
  }

  /** Decoding undoes encoding. */
  lemma {:induction false} DecodeOfEncode(bs: Bytes)
    ensures Decode(Encode(bs)) == Some(bs)
  {
    if bs != [] {
      if |bs| > 2 { DecodeOfEncode(bs[3..]); }
      EncodedGroup(bs);
      Regroup(FirstBlock(bs), Sextets(FirstBlock(bs)));
      TextLength(bs);
      OneBlock(bs, Encode(bs));
    }
  }

  /** Encoding undoes decoding: each byte string has one accepted text. */
  lemma {:induction false} EncodeOfDecode(s: string)
    requires Decode(s).Some?
    ensures Encode(Decode(s).value) == s
  {
    if s != [] {
      if |s| > 3 { EncodeOfDecode(s[4..]); }
      var bs := DecodedBytes(s);
      CharsOfGroup(s);
      Regroup(Octets(GroupOf(s).value), GroupOf(s).value);
      OneGroup(s, GroupOf(s).value, bs);
    }
  }

  lemma DecodedBytes(s: string) returns (bs: Bytes)
    requires s != [] && Decode(s).Some?
    ensures |s| >= 2 && GroupOf(s).Some? && Decode(s) == Some(bs) && bs != []
    ensures FirstBlock(bs) == Octets(GroupOf(s).value)
    ensures |s| < 4 ==> |bs| == |s| - 1
    ensures |s| >= 4 ==> |bs| >= 3 && Decode(s[4..]) == Some(bs[3..])
  {
    bs := Decode(s).value;
    if |s| < 4 { PaddedOctets(GroupOf(s).value); }
  }

  lemma OneGroup(s: string, g: Group, bs: Bytes)
    requires bs != [] && |s| >= 2 && Sextets(FirstBlock(bs)) == g
    requires s[0] == CharOf(g.a) && s[1] == CharOf(g.b)
    requires |s| > 2 ==> s[2] == CharOf(g.c)
    requires |s| > 3 ==> s[3] == CharOf(g.d)
    requires |s| < 4 ==> |bs| == |s| - 1
    requires |s| >= 4 ==> |bs| >= 3 && Encode(bs[3..]) == s[4..]
    ensures Encode(bs) == s
  {
    if |s| > 3 { assert s == [s[0], s[1], s[2], s[3]] + s[4..]; }
  }

  lemma DecodeInjective(s: string, t: string)
    requires Decode(s).Some? && Decode(s) == Decode(t)
    ensures s == t
  {
    EncodeOfDecode(s);
    EncodeOfDecode(t);
  }

  /** No encoded text holds the dot that separates token segments. */
  lemma {:induction false} NoDots(bs: Bytes)
    ensures '.' !in Encode(bs)
  {
    if |bs| > 2 { NoDots(bs[3..]); }
  }

  lemma FourDigits(a: Sextet, b: Sextet, c: Sextet, d: Sextet)
    ensures var n := a * 262144 + b * 4096 + c * 64 + d;
            n / 262144 == a && n / 4096 % 64 == b && n / 64 % 64 == c && n % 64 == d
  {
    var n := a * 262144 + b * 4096 + c * 64 + d;
    assert n / 64 == a * 4096 + b * 64 + c;
    assert n / 4096 == a * 64 + b;
  }

  lemma BytesInDigits(x: Byte, y: Byte, z: Byte)
    ensures var g := Sextets(Block(x, y, z)); x * 65536 + y * 256 + z == g.a * 262144 + g.b * 4096 + g.c * 64 + g.d
  {}

  lemma DigitsOf24Bits(x: Byte, y: Byte, z: Byte)
    ensures var n := x * 65536 + y * 256 + z;
            Sextets(Block(x, y, z)) == Group(n / 262144, n / 4096 % 64, n / 64 % 64, n % 64)
  {
    var g := Sextets(Block(x, y, z));
    BytesInDigits(x, y, z);
    FourDigits(g.a, g.b, g.c, g.d);
  }

  lemma TextOfGroup(x: Byte, y: Byte, z: Byte, rest: Bytes)
    ensures var g := Sextets(Block(x, y, z));
            Encode([x, y, z] + rest) == [CharOf(g.a), CharOf(g.b), CharOf(g.c), CharOf(g.d)] + Encode(rest)
  {
    assert ([x, y, z] + rest)[3..] == rest;
  }

  /** Section 4 of RFC 4648: three bytes are 24 bits, most significant first, and their text is the
      four digits of that number to the base 64. */
  lemma TextIsBase64(x: Byte, y: Byte, z: Byte, rest: Bytes)
    ensures var n := x * 65536 + y * 256 + z;
            Encode([x, y, z] + rest) ==
            [CharOf(n / 262144), CharOf(n / 4096 % 64), CharOf(n / 64 % 64), CharOf(n % 64)] + Encode(rest)
  {
    TextOfGroup(x, y, z, rest);
    DigitsOf24Bits(x, y, z);
  }

  lemma TextOfTwo(x: Byte, y: Byte)
    ensures var g := Sextets(Block(x, y, 0)); Encode([x, y]) == [CharOf(g.a), CharOf(g.b), CharOf(g.c)]
  {}

  lemma TextOfOne(x: Byte)
    ensures var g := Sextets(Block(x, 0, 0)); Encode([x]) == [CharOf(g.a), CharOf(g.b)]
  {}

  /** At the end the bits are filled up with zeros and the digits without data left out. */
  lemma LastTwoAreBase64(x: Byte, y: Byte)
    ensures var n := x * 65536 + y * 256; Encode([x, y]) == [CharOf(n / 262144), CharOf(n / 4096 % 64), CharOf(n / 64 % 64)]
  {
    TextOfTwo(x, y);
    DigitsOf24Bits(x, y, 0);
  }

  lemma LastOneIsBase64(x: Byte)
    ensures var n := x * 65536; Encode([x]) == [CharOf(n / 262144), CharOf(n / 4096 % 64)]
  {
    TextOfOne(x);
    DigitsOf24Bits(x, 0, 0);
  }
}

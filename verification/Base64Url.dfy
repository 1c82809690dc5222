/** Unpadded base64url, by sections 3.2, 3.5 and 5 of RFC 4648. */
module Base64Url {
  import opened Wrappers
  import opened Domain

  type Sextet = i: int | 0 <= i < 64

  function Symbol(i: Sextet): (c: char)
    ensures SymbolIndex(c) == Some(i)
  {
    if i < 26 then (('A' as int) + i) as char
    else if i < 52 then (('a' as int) + i - 26) as char
    else if i < 62 then (('0' as int) + i - 52) as char
    else if i == 62 then '-' else '_'
  }

  function SymbolIndex(c: char): (r: Option<Sextet>)
  {
    if 'A' <= c <= 'Z' then Some((c as int) - ('A' as int))
    else if 'a' <= c <= 'z' then Some((c as int) - ('a' as int) + 26)
    else if '0' <= c <= '9' then Some((c as int) - ('0' as int) + 52)
    else if c == '-' then Some(62)
    else if c == '_' then Some(63)
    else None
  }

  function FirstSextet(a: int): Sextet
    requires 0 <= a < 256
  {
    a / 4
  }

  function SecondSextet(a: int, b: int): Sextet
    requires 0 <= a < 256 && 0 <= b < 256
  {
    a % 4 * 16 + b / 16
  }

  function ThirdSextet(b: int, c: int): Sextet
    requires 0 <= b < 256 && 0 <= c < 256
  {
    b % 16 * 4 + c / 64
  }

  function FourthSextet(c: int): Sextet
    requires 0 <= c < 256
  {
    c % 64
  }

  /** Regroups bytes into sextets: four for three bytes, and two or three for a remainder, whose
      trailing bits are zero. */
  function Pack(b: seq<Byte>): seq<Sextet> {
    if |b| == 0 then []
    else if |b| == 1 then [FirstSextet(b[0]), SecondSextet(b[0], 0)]
    else if |b| == 2 then [FirstSextet(b[0]), SecondSextet(b[0], b[1]), ThirdSextet(b[1], 0)]
    else
      [FirstSextet(b[0]), SecondSextet(b[0], b[1]), ThirdSextet(b[1], b[2]), FourthSextet(b[2])] + Pack(b[3..])
  }

  function FirstByte(i: int, j: int): Byte
    requires 0 <= i < 64 && 0 <= j < 64
  {
    i * 4 + j / 16
  }

  function SecondByte(j: int, k: int): Byte
    requires 0 <= j < 64 && 0 <= k < 64
  {
    j % 16 * 16 + k / 4
  }

  function ThirdByte(k: int, l: int): Byte
    requires 0 <= k < 64 && 0 <= l < 64
  {
    k % 4 * 64 + l
  }

  /** Regroups sextets into bytes; a lone sextet and nonzero trailing bits are refused. */
  function Unpack(x: seq<Sextet>): Option<seq<Byte>> {
    if |x| == 0 then Some([])
    else if |x| == 1 then None
    else if |x| == 2 then
      if x[1] % 16 == 0 then Some([FirstByte(x[0], x[1])]) else None
    else if |x| == 3 then
      if x[2] % 4 == 0 then Some([FirstByte(x[0], x[1]), SecondByte(x[1], x[2])]) else None
    else
      match Unpack(x[4..])
      case None => None
      case Some(rest) =>
        Some([FirstByte(x[0], x[1]), SecondByte(x[1], x[2]), ThirdByte(x[2], x[3])] + rest)
  }

  function Symbols(x: seq<Sextet>): (s: string)
    ensures |s| == |x| && forall i | 0 <= i < |x| :: SymbolIndex(s[i]) == Some(x[i])
  {
    seq(|x|, i requires 0 <= i < |x| => Symbol(x[i]))
  }

  function Indices(s: string): (r: Option<seq<Sextet>>)
    ensures r.Some? <==> forall i | 0 <= i < |s| :: SymbolIndex(s[i]).Some?
    ensures r.Some? ==> |r.value| == |s| && forall i | 0 <= i < |s| :: SymbolIndex(s[i]) == Some(r.value[i])
  {
    if forall i | 0 <= i < |s| :: SymbolIndex(s[i]).Some? then
      Some(seq(|s|, i requires 0 <= i < |s| => SymbolIndex(s[i]).value))
    else None
  }

  function Encode(b: seq<Byte>): string {
    Symbols(Pack(b))
  }

  /** Decoding of symbols alone; trailing bits must be zero. */
  function DecodeStrict(s: string): Option<seq<Byte>> {
    match Indices(s)
    case None => None
    case Some(x) => Unpack(x)
  }

  predicate IsNewline(c: char) {
    c == '\r' || c == '\n'
  }

  function WithoutNewlines(s: string): string {
    if s == "" then "" else (if IsNewline(s[0]) then "" else [s[0]]) + WithoutNewlines(s[1..])
  }

  /** The library decoder, which passes over carriage returns and line feeds even in strict mode. */
  function Decode(s: string): Option<seq<Byte>> {
    DecodeStrict(WithoutNewlines(s))
  }

  function EncodedLength(n: nat): nat {
    (n * 8 + 5) / 6
  }

  lemma {:induction false} PackLength(b: seq<Byte>)
    ensures |Pack(b)| == EncodedLength(|b|)
  {
    if |b| >= 3 {
      PackLength(b[3..]);
    }
  }

  lemma BytesOfSextets(a: Byte, b: Byte, c: Byte)
    ensures FirstByte(FirstSextet(a), SecondSextet(a, b)) == a
    ensures SecondByte(SecondSextet(a, b), ThirdSextet(b, c)) == b
    ensures ThirdByte(ThirdSextet(b, c), FourthSextet(c)) == c
    ensures SecondSextet(a, 0) % 16 == 0 && ThirdSextet(b, 0) % 4 == 0
  {
  }

  lemma SextetsOfBytes(i: Sextet, j: Sextet, k: Sextet, l: Sextet)
    ensures FirstSextet(FirstByte(i, j)) == i
    ensures SecondSextet(FirstByte(i, j), SecondByte(j, k)) == j
    ensures ThirdSextet(SecondByte(j, k), ThirdByte(k, l)) == k
    ensures FourthSextet(ThirdByte(k, l)) == l
    ensures j % 16 == 0 ==> SecondSextet(FirstByte(i, j), 0) == j
    ensures k % 4 == 0 ==> ThirdSextet(SecondByte(j, k), 0) == k
  {
  }

  lemma UnpackFour(x: seq<Sextet>, rest: seq<Byte>, a: Byte, b: Byte, c: Byte)
    requires |x| >= 4 && Unpack(x[4..]) == Some(rest)
    requires a == FirstByte(x[0], x[1]) && b == SecondByte(x[1], x[2]) && c == ThirdByte(x[2], x[3])
    ensures Unpack(x) == Some([a, b, c] + rest)
  {
  }

  lemma PackThree(b: seq<Byte>, rest: seq<Sextet>, i: Sextet, j: Sextet, k: Sextet, l: Sextet)
    requires |b| >= 3 && Pack(b[3..]) == rest
    requires i == FirstSextet(b[0]) && j == SecondSextet(b[0], b[1])
    requires k == ThirdSextet(b[1], b[2]) && l == FourthSextet(b[2])
    ensures Pack(b) == [i, j, k, l] + rest
  {
  }

  lemma {:induction false} UnpackPack(b: seq<Byte>)
    ensures Unpack(Pack(b)) == Some(b)
  {
    if |b| >= 3 {
      UnpackPack(b[3..]);
      UnpackPackThree(b, Pack(b[3..]));
    } else if |b| == 2 {
      UnpackPackTwo(b);
    } else if |b| == 1 {
      UnpackPackOne(b);
    }
  }

  lemma UnpackPackOne(b: seq<Byte>)
    requires |b| == 1
    ensures Unpack(Pack(b)) == Some(b)
  {
    var i, j := FirstSextet(b[0]), SecondSextet(b[0], 0);
    LoneByte(b[0]);
    UnpackTwo([i, j], b[0]);
    assert b == [b[0]];
  }

  lemma LoneByte(a: Byte)
    ensures SecondSextet(a, 0) % 16 == 0 && FirstByte(FirstSextet(a), SecondSextet(a, 0)) == a
  {
  }

  lemma UnpackTwo(x: seq<Sextet>, a: Byte)
    requires |x| == 2 && x[1] % 16 == 0 && a == FirstByte(x[0], x[1])
    ensures Unpack(x) == Some([a])
  {
  }

  lemma UnpackPackTwo(b: seq<Byte>)
    requires |b| == 2
    ensures Unpack(Pack(b)) == Some(b)
  {
    BytesOfSextets(b[0], b[1], 0);
    assert b == [b[0], b[1]];
  }

  lemma UnpackPackThree(b: seq<Byte>, rest: seq<Sextet>)
    requires |b| >= 3 && rest == Pack(b[3..]) && Unpack(rest) == Some(b[3..])
    ensures Unpack(Pack(b)) == Some(b)
  {
    var i, j, k, l := FirstSextet(b[0]), SecondSextet(b[0], b[1]), ThirdSextet(b[1], b[2]), FourthSextet(b[2]);
    PackThree(b, rest, i, j, k, l);
    BytesOfSextets(b[0], b[1], b[2]);
    var x := [i, j, k, l] + rest;
    assert x[4..] == rest;
    UnpackFour(x, b[3..], b[0], b[1], b[2]);
    assert b == [b[0], b[1], b[2]] + b[3..];
  }

  lemma {:induction false} PackUnpack(x: seq<Sextet>)
    requires Unpack(x).Some?
    ensures Pack(Unpack(x).value) == x
  {
    if |x| >= 4 {
      PackUnpack(x[4..]);
      PackUnpackFour(x, Unpack(x[4..]).value);
    } else if |x| == 3 {
      SextetsOfBytes(x[0], x[1], x[2], 0);
      assert x == [x[0], x[1], x[2]];
    } else if |x| == 2 {
      SextetsOfBytes(x[0], x[1], 0, 0);
      assert x == [x[0], x[1]];
    }
  }

  lemma PackUnpackFour(x: seq<Sextet>, rest: seq<Byte>)
    requires |x| >= 4 && Unpack(x[4..]) == Some(rest) && Pack(rest) == x[4..]
    ensures Unpack(x).Some? && Pack(Unpack(x).value) == x
  {
    var a, b, c := FirstByte(x[0], x[1]), SecondByte(x[1], x[2]), ThirdByte(x[2], x[3]);
    UnpackFour(x, rest, a, b, c);
    SextetsOfBytes(x[0], x[1], x[2], x[3]);
    var bytes := [a, b, c] + rest;
    assert bytes[3..] == rest;
    PackThree(bytes, x[4..], x[0], x[1], x[2], x[3]);
    assert x == [x[0], x[1], x[2], x[3]] + x[4..];
  }

  lemma IndicesOfSymbols(x: seq<Sextet>)
    ensures Indices(Symbols(x)) == Some(x)
  {
    var s := Symbols(x);
    assert Indices(s).Some?;
    assert forall i | 0 <= i < |x| :: SymbolIndex(s[i]) == Some(x[i]);
    assert Indices(s).value == x;
  }

  lemma SymbolsOfIndices(s: string)
    requires Indices(s).Some?
    ensures Symbols(Indices(s).value) == s
  {
  }

  lemma DecodeStrictEncode(b: seq<Byte>)
    ensures DecodeStrict(Encode(b)) == Some(b)
  {
    IndicesOfSymbols(Pack(b));
    UnpackPack(b);
  }

  lemma EncodeDecodeStrict(s: string)
    requires DecodeStrict(s).Some?
    ensures Encode(DecodeStrict(s).value) == s
  {
    PackUnpack(Indices(s).value);
    SymbolsOfIndices(s);
  }

  lemma {:induction false} NoNewlinesToSkip(s: string)
    requires forall c <- s :: !IsNewline(c)
    ensures WithoutNewlines(s) == s
  {
    if s != "" {
      NoNewlinesToSkip(s[1..]);
      assert s == [s[0]] + s[1..];
    }
  }

  /** Decoding undoes encoding, for byte strings of any length. */
  lemma DecodeEncode(b: seq<Byte>)
    ensures Decode(Encode(b)) == Some(b)
  {
    forall i | 0 <= i < |Encode(b)|
      ensures !IsNewline(Encode(b)[i])
    {
      assert SymbolIndex(Encode(b)[i]).Some?;
    }
    NoNewlinesToSkip(Encode(b));
    DecodeStrictEncode(b);
  }

  /** A decodable string encodes back to itself without its newlines. */
  lemma ReencodeDropsNewlines(s: string)
    requires Decode(s).Some?
    ensures Encode(Decode(s).value) == WithoutNewlines(s)
  {
    EncodeDecodeStrict(WithoutNewlines(s));
  }

  /** Decoding followed by the comparison with the reencoding. */
  predicate IsCanonical(s: string) {
    Decode(s).Some? && Encode(Decode(s).value) == s
  }

  /** The comparison accepts exactly the encodings, each with the one byte string that it encodes. */
  lemma CanonicalIsEncoding(s: string, b: seq<Byte>)
    ensures IsCanonical(s) && Decode(s) == Some(b) <==> s == Encode(b)
  {
    DecodeEncode(b);
  }

  /** Without the comparison the decoder would also accept other spellings of the same bytes. */
  lemma DecoderAloneIsNotCanonical()
    ensures Decode("QQ\n") == Decode("QQ") == Some([65]) && !IsCanonical("QQ\n")
  {
    assert WithoutNewlines("QQ\n") == "QQ" by {
      assert "QQ\n"[1..] == "Q\n" && "Q\n"[1..] == "\n" && "\n"[1..] == "";
    }
    assert WithoutNewlines("QQ") == "QQ" by {
      assert "QQ"[1..] == "Q" && "Q"[1..] == "";
    }
  }

  /** The symbols are those of table 2 in section 5 of RFC 4648, in its order. */
  lemma SymbolsAreTheAlphabet()
    ensures Symbol(0) == 'A' && Symbol(25) == 'Z' && Symbol(26) == 'a' && Symbol(51) == 'z'
    ensures Symbol(52) == '0' && Symbol(61) == '9' && Symbol(62) == '-' && Symbol(63) == '_'
    ensures forall i: Sextet | i < 63 && i !in [25, 51, 61, 62] :: Symbol(i + 1) as int == Symbol(i) as int + 1
  {
  }

  /** The encoding of bytes spells their sextets. */
  lemma EncodingSpellsSextets(b: seq<Byte>, k: nat)
    requires k < |Pack(b)|
    ensures |Encode(b)| == |Pack(b)| && Encode(b)[k] == Symbol(Pack(b)[k])
  {
  }

  /** A number by its digits to the base 64, and by its bytes. */
  function Bits24(w: int, x: int, y: int, z: int): int {
    w * 262144 + x * 4096 + y * 64 + z
  }

  function Bytes3(a: int, b: int, c: int): int {
    a * 65536 + b * 256 + c
  }

  /** Three bytes and their four sextets are the same number of 24 bits, most significant first. */
  lemma {:induction false} GroupIsBigEndian(b: seq<Byte>, i: nat)
    requires 3 * i + 3 <= |b|
    ensures 4 * i + 4 <= |Pack(b)|
    ensures var x := Pack(b);
      Bits24(x[4 * i], x[4 * i + 1], x[4 * i + 2], x[4 * i + 3]) == Bytes3(b[3 * i], b[3 * i + 1], b[3 * i + 2])
  {
    if i > 0 {
      GroupIsBigEndian(b[3..], i - 1);
      assert Pack(b)[4..] == Pack(b[3..]);
    } else {
      SextetsAreBits(b[0], b[1], b[2]);
    }
  }

  lemma SextetsAreBits(a: Byte, b: Byte, c: Byte)
    ensures Bits24(FirstSextet(a), SecondSextet(a, b), ThirdSextet(b, c), FourthSextet(c)) == Bytes3(a, b, c)
  {
  }

  /** One byte or two bytes at the end are filled up with zero bytes, of which the last sextets are left out. */
  lemma {:induction false} TailIsBigEndian(b: seq<Byte>)
    ensures |b| % 3 == 0 ==> |Pack(b)| == |b| / 3 * 4
    ensures |b| % 3 == 1 ==>
      var x, m := Pack(b), |b| / 3 * 4;
      |x| == m + 2 && Bits24(x[m], x[m + 1], 0, 0) == Bytes3(b[|b| - 1], 0, 0)
    ensures |b| % 3 == 2 ==>
      var x, m := Pack(b), |b| / 3 * 4;
      |x| == m + 3 && Bits24(x[m], x[m + 1], x[m + 2], 0) == Bytes3(b[|b| - 2], b[|b| - 1], 0)
  {
    if |b| >= 3 {
      TailIsBigEndian(b[3..]);
      assert Pack(b)[4..] == Pack(b[3..]);
    }
  }
}

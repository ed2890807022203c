/** Base 64 (section 4 of RFC 4648) as Go's encoding/base64 does it without padding,
    and the padded form that HTTP clients send. */
module Base64 {
  import opened Text

  type Byte = n: int | 0 <= n < 256
  type Bytes = seq<Byte>

  /** A Go string: one character per byte. */
  type GoString = s: string | forall i :: 0 <= i < |s| ==> s[i] as int < 256

  function ToBytes(s: GoString): (b: Bytes)
    ensures |b| == |s|
    ensures forall i :: 0 <= i < |s| ==> b[i] == s[i] as int
  {
    seq(|s|, i requires 0 <= i < |s| => s[i] as int)
  }

  function FromBytes(b: Bytes): (s: GoString)
    ensures |s| == |b|
    ensures ToBytes(s) == b
  {
    seq(|b|, i requires 0 <= i < |b| => b[i] as char)
  }

  lemma FromToBytes(s: GoString)
    ensures FromBytes(ToBytes(s)) == s
  {
    var t := FromBytes(ToBytes(s));
    forall i | 0 <= i < |s| ensures t[i] == s[i] {
      assert ToBytes(t)[i] == ToBytes(s)[i];
    }
  }

  type Sextet = n: int | 0 <= n < 64

  function EncodeSextet(v: Sextet): (c: char)
    ensures c != '=' && c != '\r' && c != '\n' && c as int < 256
    ensures DecodeSextet(c) == Some(v)
  {
    if v < 26 then 'A' + (v as char)
    else if v < 52 then 'a' + ((v - 26) as char)
    else if v < 62 then '0' + ((v - 52) as char)
    else if v == 62 then '+' else '/'
  }

  function DecodeSextet(c: char): Option<Sextet> {
    if 'A' <= c <= 'Z' then Some((c - 'A') as int)
    else if 'a' <= c <= 'z' then Some((c - 'a') as int + 26)
    else if '0' <= c <= '9' then Some((c - '0') as int + 52)
    else if c == '+' then Some(62)
    else if c == '/' then Some(63)
    else None
  }

  /** base64.RawStdEncoding.EncodeToString. */
  function RawEncode(b: Bytes): (s: GoString)
    ensures forall i :: 0 <= i < |s| ==> s[i] != '=' && s[i] != '\r' && s[i] != '\n' && s[i] as int < 256
  {
    if b == [] then ""
    else if |b| == 1 then
      [EncodeSextet(b[0] / 4), EncodeSextet(b[0] % 4 * 16)]
    else if |b| == 2 then
      [EncodeSextet(b[0] / 4), EncodeSextet(b[0] % 4 * 16 + b[1] / 16), EncodeSextet(b[1] % 16 * 4)]
    else
      Quad(b[0], b[1], b[2]) + RawEncode(b[3..])
  }

  function Quad(x: Byte, y: Byte, z: Byte): (s: string)
    ensures |s| == 4
    ensures forall i :: 0 <= i < 4 ==> s[i] != '=' && s[i] != '\r' && s[i] != '\n' && s[i] as int < 256
  {
    [EncodeSextet(x / 4), EncodeSextet(x % 4 * 16 + y / 16), EncodeSextet(y % 16 * 4 + z / 64), EncodeSextet(z % 64)]
  }

  /** The decoder skips line breaks wherever they stand. */
  function DropLineBreaks(s: string): string {
    if s == "" then ""
    else if s[0] == '\r' || s[0] == '\n' then DropLineBreaks(s[1..])
    else [s[0]] + DropLineBreaks(s[1..])
  }

  /** base64.RawStdEncoding.DecodeString: no padding, spare trailing bits ignored. */
  function RawDecode(s: string): Option<Bytes> {
    DecodeGroups(DropLineBreaks(s))
  }

  function DecodeGroups(s: string): Option<Bytes> {
    if s == "" then Some([])
    else if |s| == 1 then None
    else
      match (DecodeSextet(s[0]), DecodeSextet(s[1]))
      case (Some(a), Some(b)) =>
        var x := a * 4 + b / 16;
        if |s| == 2 then Some([x])
        else (
          match DecodeSextet(s[2])
          case Some(c) =>
            var y := b % 16 * 16 + c / 4;
            if |s| == 3 then Some([x, y])
            else (
              match DecodeSextet(s[3])
              case Some(d) => (
                match DecodeGroups(s[4..])
                case Some(rest) => Some([x, y, c % 4 * 64 + d] + rest)
                case None => None)
              case None => None)
          case None => None)
      case _ => None
  }

  lemma DropNothing(s: string)
    requires forall i :: 0 <= i < |s| ==> s[i] != '\r' && s[i] != '\n'
    ensures DropLineBreaks(s) == s
  {
  }

  lemma SplitByte(x: Byte, d: int)
    requires d == 4 || d == 16 || d == 64
    ensures 0 <= x / d && 0 <= x % d < d && x == x / d * d + x % d
  {
  }

  /** Raw decoding inverts raw encoding, for every byte string. */
  lemma {:induction false} RawRoundTrip(b: Bytes)
    ensures RawDecode(RawEncode(b)) == Some(b)
  {
    DropNothing(RawEncode(b));
    GroupsRoundTrip(b);
  }

  lemma SextetBack(v: Sextet)
    ensures DecodeSextet(EncodeSextet(v)) == Some(v)
  {
  }

  /** The four sextets that three bytes are spread over. */
  lemma QuadSextets(x: Byte, y: Byte, z: Byte) returns (a: Sextet, b: Sextet, c: Sextet, d: Sextet)
    ensures Quad(x, y, z) == [EncodeSextet(a), EncodeSextet(b), EncodeSextet(c), EncodeSextet(d)]
    ensures a * 4 + b / 16 == x && b % 16 * 16 + c / 4 == y && c % 4 * 64 + d == z
  {
    SplitByte(x, 4);
    SplitByte(y, 16);
    SplitByte(z, 64);
    a, b, c, d := x / 4, x % 4 * 16 + y / 16, y % 16 * 4 + z / 64, z % 64;
  }

  lemma DecodeFour(s: string, a: Sextet, b: Sextet, c: Sextet, d: Sextet)
    requires |s| >= 4 && DecodeGroups(s[4..]).Some?
    requires DecodeSextet(s[0]) == Some(a) && DecodeSextet(s[1]) == Some(b)
    requires DecodeSextet(s[2]) == Some(c) && DecodeSextet(s[3]) == Some(d)
    ensures DecodeGroups(s) ==
      Some([a * 4 + b / 16, b % 16 * 16 + c / 4, c % 4 * 64 + d] + DecodeGroups(s[4..]).value)
  {
  }

  /** Four characters give three bytes back. */
  lemma QuadBack(x: Byte, y: Byte, z: Byte, tail: string)
    requires DecodeGroups(tail).Some?
    ensures DecodeGroups(Quad(x, y, z) + tail) == Some([x, y, z] + DecodeGroups(tail).value)
  {
    var a, b, c, d := QuadSextets(x, y, z);
    FourBack(Quad(x, y, z) + tail, tail, a, b, c, d, [x, y, z]);
  }

  lemma FourBack(s: string, tail: string, a: Sextet, b: Sextet, c: Sextet, d: Sextet, bytes: Bytes)
    requires s == [EncodeSextet(a), EncodeSextet(b), EncodeSextet(c), EncodeSextet(d)] + tail && DecodeGroups(tail).Some?
    requires bytes == [a * 4 + b / 16, b % 16 * 16 + c / 4, c % 4 * 64 + d]
    ensures DecodeGroups(s) == Some(bytes + DecodeGroups(tail).value)
  {
    SextetBack(a);
    SextetBack(b);
    SextetBack(c);
    SextetBack(d);
    assert s[4..] == tail;
    DecodeFour(s, a, b, c, d);
  }

  lemma {:induction false} GroupsRoundTrip(b: Bytes)
    ensures DecodeGroups(RawEncode(b)) == Some(b)
  {
    if |b| >= 3 {
      GroupsRoundTrip(b[3..]);
      QuadBack(b[0], b[1], b[2], RawEncode(b[3..]));
      assert b == [b[0], b[1], b[2]] + b[3..];
    } else if |b| == 2 {
      assert b == [b[0], b[1]];
    } else if |b| == 1 {
      assert b == [b[0]];
    }
  }

  /** Padding to a multiple of four characters. */
  function PadEncode(b: Bytes): string {
    RawEncode(b) + Padding(PadCount(|RawEncode(b)|))
  }

  function PadCount(n: nat): (k: nat)
    ensures k < 4 && (n + k) % 4 == 0
  {
    (4 - n % 4) % 4
  }

  function Padding(k: nat): (s: string)
    ensures |s| == k
    ensures forall i :: 0 <= i < k ==> s[i] == '='
  {
    seq(k, _ => '=')
  }

  /** strings.TrimRight(s, "="). */
  function TrimPadding(s: string): (t: string)
    ensures t <= s
    ensures t == "" || t[|t| - 1] != '='
  {
    if s != "" && s[|s| - 1] == '=' then TrimPadding(s[..|s| - 1]) else s
  }

  lemma {:induction false} TrimOfPadded(s: string, k: nat)
    requires '=' !in s
    ensures TrimPadding(s + Padding(k)) == s
  {
    var t := s + Padding(k);
    if k == 0 {
      assert t == s;
    } else {
      assert t[..|t| - 1] == s + Padding(k - 1);
      TrimOfPadded(s, k - 1);
    }
  }

  /** Trimming "=" and decoding raw inverts the padded encoding. */
  lemma PaddedRoundTrip(b: Bytes)
    ensures RawDecode(TrimPadding(PadEncode(b))) == Some(b)
  {
    TrimOfPadded(RawEncode(b), PadCount(|RawEncode(b)|));
    RawRoundTrip(b);
  }

  /** The alphabet of section 4 of RFC 4648. */
  const ALPHABET := UPPER + LOWER + DIGITS + "+/"

  lemma AlphabetAt(v: Sextet)
    ensures |ALPHABET| == 64 && EncodeSextet(v) == ALPHABET[v]
  {
    InOrder(if v < 26 then v else if v < 52 then v - 26 else if v < 62 then v - 52 else 0);
  }

  /** The k-th group of six bits of the bytes written one after the other, zeros behind
      them. */
  function Bits(b: Bytes, k: nat): (v: Sextet)
    requires 6 * k < 8 * |b|
  {
    var j := 6 * k / 8;
    var window := b[j] as int * 256 + if j + 1 < |b| then b[j + 1] else 0;
    match k % 4
    case 0 => window / 1024
    case 1 => window / 16 % 64
    case 2 => window / 64 % 64
    case _ => window / 256 % 64
  }

  lemma BitsShift(b: Bytes, k: nat)
    requires k >= 4 && 6 * k < 8 * |b|
    ensures |b| >= 3 && Bits(b, k) == Bits(b[3..], k - 4)
  {
    assert 6 * k / 8 == 6 * (k - 4) / 8 + 3;
  }

  /** Encoding writes the letters of these groups, as many as hold all the bits. */
  lemma {:induction false} RawEncodeAt(b: Bytes, k: nat)
    requires 6 * k < 8 * |b|
    ensures k < |RawEncode(b)| && RawEncode(b)[k] == ALPHABET[Bits(b, k)]
    decreases |b|
  {
    AlphabetAt(Bits(b, k));
    if k >= 4 {
      BitsShift(b, k);
      RawEncodeAt(b[3..], k - 4);
    } else if |b| >= 3 {
      assert RawEncode(b)[k] == Quad(b[0], b[1], b[2])[k];
      FirstBits(b, k);
    } else {
      FirstBits(b, k);
    }
  }

  lemma Parts(d: nat, q: nat, v: nat)
    requires v < d && (d == 16 || d == 64)
    ensures (d * q + v) / d == q && (d * q + v) % d == v
  {
  }

  lemma Window0(x: Byte, y: Byte)
    ensures (x as int * 256 + y) / 1024 == x / 4
  {
    assert x as int * 256 + y == 1024 * (x / 4) + (256 * (x % 4) + y);
  }

  lemma Window1(x: Byte, y: Byte)
    ensures (x as int * 256 + y) / 16 % 64 == x % 4 * 16 + y / 16
  {
    var q, v := x / 4, x % 4 * 16 + y / 16;
    Parts(16, 64 * q + v, y % 16);
    Parts(64, q, v);
    assert x as int * 256 + y == 16 * (64 * q + v) + y % 16;
  }

  lemma Window2(x: Byte, y: Byte)
    ensures (x as int * 256 + y) / 64 % 64 == x % 16 * 4 + y / 64
  {
    var q, v := x / 16, x % 16 * 4 + y / 64;
    Parts(64, 64 * q + v, y % 64);
    Parts(64, q, v);
    assert x as int * 256 + y == 64 * (64 * q + v) + y % 64;
  }

  lemma FirstBits(b: Bytes, k: nat)
    requires k < 4 && 6 * k < 8 * |b|
    ensures k == 0 ==> Bits(b, k) == b[0] / 4
    ensures k == 1 ==> Bits(b, k) == b[0] % 4 * 16 + if |b| == 1 then 0 else b[1] / 16
    ensures k == 2 ==> Bits(b, k) == b[1] % 16 * 4 + if |b| == 2 then 0 else b[2] / 64
    ensures k == 3 ==> Bits(b, k) == b[2] % 64
  {
    var j := 6 * k / 8;
    var y := if j + 1 < |b| then b[j + 1] else 0;
    if k == 0 { Window0(b[j], y); } else if k == 1 { Window1(b[j], y); } else if k == 2 { Window2(b[j], y); }
  }

  lemma {:induction false} RawEncodeLength(b: Bytes)
    ensures |RawEncode(b)| == (8 * |b| + 5) / 6
  {
    if |b| >= 3 { RawEncodeLength(b[3..]); }
  }
}

/**
 Unpadded standard base64, section 4 of RFC 4648, as Go's RawStdEncoding reads and writes
 it: the decoder skips line breaks and ignores bits left over in the last character.
 */
module Base64 {
  import opened Basics

  type Byte = n: int | 0 <= n < 256

  type Sextet = n: int | 0 <= n < 64

  function Char(i: Sextet): char {
    if i < 26 then ('A' as int + i) as char
    else if i < 52 then ('a' as int + i - 26) as char
    else if i < 62 then ('0' as int + i - 52) as char
    else if i == 62 then '+' else '/'
  }

  function Index(c: char): Option<Sextet> {
    if 'A' <= c <= 'Z' then Some(c as int - 'A' as int)
    else if 'a' <= c <= 'z' then Some(c as int - 'a' as int + 26)
    else if '0' <= c <= '9' then Some(c as int - '0' as int + 52)
    else if c == '+' then Some(62)
    else if c == '/' then Some(63)
    else None
  }

  predicate LineBreak(c: char) {
    c == '\r' || c == '\n'
  }

  // ---------- Characters and sextets ----------

  function Chars(digits: seq<Sextet>): string {
    seq(|digits|, i requires 0 <= i < |digits| => Char(digits[i]))
  }

  function Sextets(s: string): Option<seq<Sextet>> {
    if s == "" then Some([])
    else if LineBreak(s[0]) then Sextets(s[1..])
    else
      match (Index(s[0]), Sextets(s[1..]))
      case (Some(d), Some(rest)) => Some([d] + rest)
      case _ => None
  }

  lemma CharIndex(i: Sextet)
    ensures Index(Char(i)) == Some(i) && !LineBreak(Char(i))
  {
  }

  lemma IndexChar(c: char)
    ensures Index(c).Some? ==> Char(Index(c).value) == c && !LineBreak(c)
  {
  }

  lemma {:induction false} SextetsOfChars(digits: seq<Sextet>)
    ensures Sextets(Chars(digits)) == Some(digits)
  {
    if digits != [] {
      CharIndex(digits[0]);
      SextetsOfChars(digits[1..]);
      assert Chars(digits)[1..] == Chars(digits[1..]);
      assert [digits[0]] + digits[1..] == digits;
    }
  }

  /** Written back, the sextets give the string exactly when it had no line breaks. */
  lemma {:induction false} CharsOfSextets(s: string)
    requires Sextets(s).Some?
    ensures |Chars(Sextets(s).value)| <= |s|
    ensures Chars(Sextets(s).value) == s <==> forall c | c in s :: !LineBreak(c)
  {
    if s != "" {
      var digits := Sextets(s).value;
      CharsOfSextets(s[1..]);
      IndexChar(s[0]);
      assert s == [s[0]] + s[1..];
      if !LineBreak(s[0]) {
        assert Chars(digits) == [s[0]] + Chars(digits[1..]);
        assert digits[1..] == Sextets(s[1..]).value;
      }
    }
  }

  // ---------- Sextets and bytes ----------

  /** Four sextets hold the bits of three bytes, high bits first. */
  function Pack(a: int, b: int, c: int): (d: seq<Sextet>)
    requires 0 <= a < 256 && 0 <= b < 256 && 0 <= c < 256
    ensures |d| == 4
  {
    [a / 4, a % 4 * 16 + b / 16, b % 16 * 4 + c / 64, c % 64]
  }

  function Unpack(w: int, x: int, y: int, z: int): (b: seq<Byte>)
    requires 0 <= w < 64 && 0 <= x < 64 && 0 <= y < 64 && 0 <= z < 64
    ensures |b| == 3
  {
    [w * 4 + x / 16, x % 16 * 16 + y / 4, y % 4 * 64 + z]
  }

  lemma UnpackPack(a: Byte, b: Byte, c: Byte)
    ensures var d := Pack(a, b, c); Unpack(d[0], d[1], d[2], d[3]) == [a, b, c]
  {
  }

  lemma DivMod(high: int, low: int, base: int)
    requires base in {4, 16, 64} && 0 <= low < base
    ensures (high * base + low) / base == high && (high * base + low) % base == low
  {
  }

  lemma PackUnpack(w: Sextet, x: Sextet, y: Sextet, z: Sextet)
    ensures var b := Unpack(w, x, y, z); Pack(b[0], b[1], b[2]) == [w, x, y, z]
  {
    DivMod(w, x / 16, 4);
    DivMod(x % 16, y / 4, 16);
    DivMod(y % 4, z, 64);
    var b := Unpack(w, x, y, z);
    assert b[0] / 4 == w && b[0] % 4 == x / 16 && b[1] / 16 == x % 16 && b[1] % 16 == y / 4;
    assert b[2] / 64 == y % 4 && b[2] % 64 == z;
  }

  /** One or two bytes left over are packed with zeros and cut to the sextets they need. */
  function Split(data: seq<Byte>): seq<Sextet> {
    if |data| == 0 then []
    else if |data| == 1 then Pack(data[0], 0, 0)[..2]
    else if |data| == 2 then Pack(data[0], data[1], 0)[..3]
    else Pack(data[0], data[1], data[2]) + Split(data[3..])
  }

  /** A single sextet left over is an error. */
  function Join(d: seq<Sextet>): Option<seq<Byte>> {
    if |d| == 0 then Some([])
    else if |d| == 1 then None
    else if |d| == 2 then Some(Unpack(d[0], d[1], 0, 0)[..1])
    else if |d| == 3 then Some(Unpack(d[0], d[1], d[2], 0)[..2])
    else
      match Join(d[4..])
      case None => None
      case Some(rest) => Some(Unpack(d[0], d[1], d[2], d[3]) + rest)
  }

  lemma {:induction false} JoinSplit(data: seq<Byte>)
    ensures Join(Split(data)) == Some(data)
  {
    if |data| == 1 {
      assert data == [data[0]];
      OneByte(data[0]);
    } else if |data| == 2 {
      assert data == [data[0], data[1]];
      TwoBytes(data[0], data[1]);
    } else if |data| >= 3 {
      UnpackPack(data[0], data[1], data[2]);
      JoinSplit(data[3..]);
      assert Split(data)[4..] == Split(data[3..]);
      assert data == [data[0], data[1], data[2]] + data[3..];
    }
  }

  lemma OneByte(a: Byte)
    ensures Join(Split([a])) == Some([a])
  {
    var d := Pack(a, 0, 0);
    assert Split([a]) == d[..2] && d[2] == 0 && d[3] == 0;
    UnpackPack(a, 0, 0);
    assert Unpack(d[0], d[1], 0, 0)[..1] == [a];
  }

  lemma TwoBytes(a: Byte, b: Byte)
    ensures Join(Split([a, b])) == Some([a, b])
  {
    var d := Pack(a, b, 0);
    assert Split([a, b]) == d[..3] && d[3] == 0;
    UnpackPack(a, b, 0);
    assert Unpack(d[0], d[1], d[2], 0)[..2] == [a, b];
  }

  /** The bits of the last sextet that no byte uses are zero. */
  predicate ZeroTail(d: seq<Sextet>) {
    (|d| % 4 == 2 ==> d[|d| - 1] % 16 == 0) && (|d| % 4 == 3 ==> d[|d| - 1] % 4 == 0)
  }

  lemma {:induction false} SplitJoin(d: seq<Sextet>)
    requires Join(d).Some?
    ensures Split(Join(d).value) == d <==> ZeroTail(d)
  {
    if |d| >= 4 {
      SplitJoin(d[4..]);
      SplitJoinQuantum(d);
    } else if |d| == 2 {
      assert Split(Join(d).value) == [d[0], d[1] / 16 * 16];
    } else if |d| == 3 {
      assert Split(Join(d).value) == [d[0], d[1], d[2] / 4 * 4];
    }
  }

  lemma SplitJoinQuantum(d: seq<Sextet>)
    requires |d| >= 4 && Join(d).Some?
    ensures Split(Join(d).value) == d <==> Split(Join(d[4..]).value) == d[4..]
    ensures ZeroTail(d) <==> ZeroTail(d[4..])
  {
    PackUnpack(d[0], d[1], d[2], d[3]);
    SplitQuantum(Unpack(d[0], d[1], d[2], d[3]), Join(d[4..]).value, d);
    ZeroTailAfterQuantum(d);
  }

  lemma ZeroTailAfterQuantum(d: seq<Sextet>)
    requires |d| >= 4
    ensures ZeroTail(d) <==> ZeroTail(d[4..])
  {
    assert |d| % 4 == (|d| - 4) % 4;
  }

  lemma SplitQuantum(b: seq<Byte>, rest: seq<Byte>, d: seq<Sextet>)
    requires |b| == 3 && |d| >= 4 && Pack(b[0], b[1], b[2]) == [d[0], d[1], d[2], d[3]]
    ensures Split(b + rest) == d <==> Split(rest) == d[4..]
  {
    SplitPrefix(b, rest);
    SamePrefix([d[0], d[1], d[2], d[3]], Split(rest), d);
  }

  lemma SplitPrefix(b: seq<Byte>, rest: seq<Byte>)
    requires |b| == 3
    ensures Split(b + rest) == Pack(b[0], b[1], b[2]) + Split(rest)
  {
    assert (b + rest)[3..] == rest;
  }

  lemma SamePrefix(four: seq<Sextet>, tail: seq<Sextet>, d: seq<Sextet>)
    requires |four| == 4 <= |d| && four == d[..4]
    ensures four + tail == d <==> tail == d[4..]
  {
    assert d == d[..4] + d[4..];
    assert (four + tail)[4..] == tail;
  }

  // ---------- Encoding and decoding ----------

  function Encode(data: seq<Byte>): string {
    Chars(Split(data))
  }

  function Decode(s: string): Option<seq<Byte>> {
    match Sextets(s)
    case None => None
    case Some(digits) => Join(digits)
  }

  lemma DecodeEncode(data: seq<Byte>)
    ensures Decode(Encode(data)) == Some(data)
    ensures forall c | c in Encode(data) :: Index(c).Some?
  {
    SextetsOfChars(Split(data));
    JoinSplit(data);
    forall c | c in Encode(data)
      ensures Index(c).Some?
    {
      var i :| 0 <= i < |Split(data)| && c == Char(Split(data)[i]);
      CharIndex(Split(data)[i]);
    }
  }

  /** The byte at a position, and zero past the end. */
  function ByteAt(data: seq<Byte>, i: nat): Byte {
    if i < |data| then data[i] else 0
  }

  /** The three bytes of a quantum as one number. */
  function Quantum(data: seq<Byte>, q: nat): nat {
    ByteAt(data, 3 * q) * 65536 + ByteAt(data, 3 * q + 1) * 256 + ByteAt(data, 3 * q + 2)
  }

  /** What a digit is worth: the `k`-th of four, most significant first. */
  function Digit(n: nat, k: nat): nat {
    if k == 0 then n / 262144 else if k == 1 then n / 4096 % 64 else if k == 2 then n / 64 % 64 else n % 64
  }

  lemma Quotient(n: nat, base: nat, high: nat, low: nat)
    requires base in {64, 4096, 262144} && n == high * base + low && low < base
    ensures n / base == high && n % base == low
  {
  }

  lemma PackDigits(a: Byte, b: Byte, c: Byte)
    ensures forall k: nat | k < 4 :: Pack(a, b, c)[k] == Digit(a * 65536 + b * 256 + c, k)
  {
    var n := a * 65536 + b * 256 + c;
    Quotient(n, 262144, a / 4, a % 4 * 65536 + b * 256 + c);
    Quotient(n, 4096, a * 16 + b / 16, b % 16 * 256 + c);
    Quotient(a * 16 + b / 16, 64, a / 4, a % 4 * 16 + b / 16);
    Quotient(n, 64, a * 1024 + b * 4 + c / 64, c % 64);
    Quotient(a * 1024 + b * 4 + c / 64, 64, a * 16 + b / 16, b % 16 * 4 + c / 64);
  }

  lemma {:induction false} SplitLength(data: seq<Byte>)
    ensures |Split(data)| == (4 * |data| + 2) / 3
    decreases |data|
  {
    if |data| >= 3 {
      SplitLength(data[3..]);
    }
  }

  lemma SplitFront(data: seq<Byte>, i: nat)
    requires i < 4 && i < |Split(data)|
    ensures Split(data)[i] == Pack(ByteAt(data, 0), ByteAt(data, 1), ByteAt(data, 2))[i]
  {
  }

  /** Every sextet of an encoding is six bits of its quantum, and there are as many as the bytes need. */
  lemma {:induction false} SplitDigits(data: seq<Byte>, i: nat)
    ensures |Split(data)| == (4 * |data| + 2) / 3
    ensures i < |Split(data)| ==> Split(data)[i] == Digit(Quantum(data, i / 4), i % 4)
    decreases |data|
  {
    SplitLength(data);
    if i < 4 && i < |Split(data)| {
      SplitFront(data, i);
      PackDigits(ByteAt(data, 0), ByteAt(data, 1), ByteAt(data, 2));
      assert i / 4 == 0 && i % 4 == i;
    } else if i < |Split(data)| {
      SplitDigits(data[3..], i - 4);
      QuantumLater(data, i / 4);
      assert (i - 4) / 4 == i / 4 - 1 && (i - 4) % 4 == i % 4;
      assert Split(data)[i] == Split(data[3..])[i - 4];
    }
  }

  lemma QuantumLater(data: seq<Byte>, q: nat)
    requires |data| >= 3 && q > 0
    ensures Quantum(data, q) == Quantum(data[3..], q - 1)
  {
  }

  /** The last two characters of the alphabet of section 4 of RFC 4648, which tell it from that of section 5. */
  lemma LastOfAlphabet()
    ensures Encode([251, 255, 191]) == "+/+/"
  {
    assert [251, 255, 191][3..] == [];
    assert Pack(251, 255, 191) == [62, 63, 62, 63] && Split([251, 255, 191]) == [62, 63, 62, 63];
  }

  /** A test vector of section 10 of RFC 4648, "foob", without its padding. */
  lemma TestVector()
    ensures Encode([102, 111, 111, 98]) == "Zm9vYg"
  {
    assert [102, 111, 111, 98][3..] == [98];
    assert Pack(102, 111, 111) == [25, 38, 61, 47] && Pack(98, 0, 0)[..2] == [24, 32];
    assert Split([102, 111, 111, 98]) == [25, 38, 61, 47, 24, 32];
    assert Char(25) == 'Z' && Char(38) == 'm' && Char(61) == '9' && Char(47) == 'v' && Char(24) == 'Y' && Char(32) == 'g';
  }

  /** What is decoded is encoded back exactly when the text is canonical. */
  lemma EncodeDecode(s: string)
    requires Decode(s).Some?
    ensures Encode(Decode(s).value) == s
       <==> (forall c | c in s :: !LineBreak(c)) && ZeroTail(Sextets(s).value)
  {
    var digits, data := Sextets(s).value, Decode(s).value;
    CharsOfSextets(s);
    SplitJoin(digits);
    if Encode(data) == s {
      SextetsOfChars(Split(data));
      assert Split(data) == digits;
    }
  }
}

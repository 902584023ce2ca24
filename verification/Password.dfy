/**
 Password hashes as self-describing PHC strings. Argon2id itself is a parameter: a function
 of password, salt, iterations, memory, parallelism and key length.
 */
module Password {
  import opened Basics
  import opened Base64

  type Kdf = (string, seq<Byte>, nat, nat, nat, nat) -> seq<Byte>

  /** The derived key has the length asked for. */
  ghost predicate KeyLengths(kdf: Kdf) {
    forall p, salt, iterations, memory, parallelism, length ::
      |kdf(p, salt, iterations, memory, parallelism, length)| == length
  }

  const UINT32 := 0x1_0000_0000
  const UINT8 := 256
  const INT63 := 0x8000_0000_0000_0000
  const VERSION := 19

  // ---------- Decimal numbers ----------

  predicate IsDigit(c: char) {
    '0' <= c <= '9'
  }

  function Decimal(n: nat): (s: string)
    ensures s != "" && forall c | c in s :: IsDigit(c)
  {
    var last := ('0' as int + n % 10) as char;
    if n < 10 then [last] else Decimal(n / 10) + [last]
  }

  function DigitValue(c: char): nat
    requires IsDigit(c)
  {
    c as int - '0' as int
  }

  function Value(digits: string): nat
    requires forall c | c in digits :: IsDigit(c)
  {
    if digits == "" then 0
    else
      var last := digits[|digits| - 1];
      assert last in digits;
      Value(digits[..|digits| - 1]) * 10 + DigitValue(last)
  }

  lemma {:induction false} ValueDecimal(n: nat)
    ensures Value(Decimal(n)) == n
  {
    var s := Decimal(n);
    if n >= 10 {
      ValueDecimal(n / 10);
      assert s[..|s| - 1] == Decimal(n / 10);
    }
  }

  // ---------- Go's scanning verbs ----------

  /** White space other than a newline is skipped; a newline is an error. */
  predicate IsBlank(c: char) {
    c in {' ', '\t', '\r', '\U{000B}', '\U{000C}'}
  }

  function SkipSpace(s: string): Option<string> {
    if s == "" then Some(s)
    else if s[0] == '\n' then None
    else if IsBlank(s[0]) then SkipSpace(s[1..])
    else Some(s)
  }

  function DigitCount(s: string): (n: nat)
    ensures n <= |s| && forall c | c in s[..n] :: IsDigit(c)
  {
    if s == "" || !IsDigit(s[0]) then 0 else 1 + DigitCount(s[1..])
  }

  datatype Scanned = Scanned(value: nat, rest: string)

  /** The digits at the front as a number below `limit`. */
  function ScanDigits(s: string, limit: nat): Option<Scanned> {
    var n := DigitCount(s);
    if n == 0 || Value(s[..n]) >= limit then None else Some(Scanned(Value(s[..n]), s[n..]))
  }

  /** %d into an unsigned variable. */
  function ScanUint(s: string, limit: nat): Option<Scanned> {
    match SkipSpace(s)
    case None => None
    case Some(t) => ScanDigits(t, limit)
  }

  /** %d into an int, as far as its absolute value and sign go. */
  function ScanInt(s: string): Option<(int, string)> {
    match SkipSpace(s)
    case None => None
    case Some(t) =>
      var negative := t != "" && t[0] == '-';
      var signed := t != "" && t[0] in {'+', '-'};
      match ScanDigits(if signed then t[1..] else t, if negative then INT63 + 1 else INT63)
      case None => None
      case Some(n) => Some((if negative then 0 - n.value as int else n.value, n.rest))
  }

  function Literal(s: string, literal: string): Option<string> {
    if literal <= s then Some(s[|literal|..]) else None
  }

  /** Text after the last verb is not looked at. */
  function ScanVersion(s: string): Option<int> {
    match Literal(s, "v=")
    case None => None
    case Some(t) =>
      match ScanInt(t)
      case None => None
      case Some((version, _)) => Some(version)
  }

  /** A literal and then a number. */
  function ScanField(s: string, literal: string, limit: nat): Option<Scanned> {
    match Literal(s, literal)
    case None => None
    case Some(t) => ScanUint(t, limit)
  }

  datatype Costs = Costs(memory: nat, iterations: nat, parallelism: nat)

  function ScanCosts(s: string): Option<Costs> {
    match ScanField(s, "m=", UINT32)
    case None => None
    case Some(m) =>
      match ScanField(m.rest, ",t=", UINT32)
      case None => None
      case Some(t) =>
        match ScanField(t.rest, ",p=", UINT8)
        case None => None
        case Some(p) => Some(Costs(m.value, t.value, p.value))
  }

  /** A printed number is scanned back when no digit follows it. */
  lemma ScanDecimal(n: nat, rest: string, limit: nat)
    requires n < limit && (rest == "" || !IsDigit(rest[0]))
    ensures ScanUint(Decimal(n) + rest, limit) == Some(Scanned(n, rest))
  {
    var s := Decimal(n) + rest;
    assert s[0] == Decimal(n)[0] && Decimal(n)[0] in Decimal(n);
    DigitsThenRest(Decimal(n), rest);
    ValueDecimal(n);
  }

  lemma {:induction false} DigitsThenRest(digits: string, rest: string)
    requires (forall c | c in digits :: IsDigit(c)) && (rest == "" || !IsDigit(rest[0]))
    ensures DigitCount(digits + rest) == |digits|
    ensures (digits + rest)[..|digits|] == digits && (digits + rest)[|digits|..] == rest
  {
    if digits == "" {
      assert digits + rest == rest;
    } else {
      DigitsThenRest(digits[1..], rest);
      assert (digits + rest)[1..] == digits[1..] + rest;
      assert digits[0] in digits;
    }
  }

  // ---------- The fields of a PHC string ----------

  function Fields(s: string, separator: char): (parts: seq<string>)
    ensures parts != []
  {
    if s == "" then [""]
    else if s[0] == separator then [""] + Fields(s[1..], separator)
    else
      var rest := Fields(s[1..], separator);
      [[s[0]] + rest[0]] + rest[1..]
  }

  lemma {:induction false} FirstField(field: string, separator: char, rest: string)
    requires separator !in field
    ensures Fields(field + [separator] + rest, separator) == [field] + Fields(rest, separator)
  {
    if field == "" {
      assert field + [separator] + rest == [separator] + rest;
    } else {
      FirstField(field[1..], separator, rest);
      assert (field + [separator] + rest)[1..] == field[1..] + [separator] + rest;
      assert [field[0]] + field[1..] == field;
    }
  }

  lemma {:induction false} LastField(field: string, separator: char)
    requires separator !in field
    ensures Fields(field, separator) == [field]
  {
    if field != "" {
      LastField(field[1..], separator);
      assert [field[0]] + field[1..] == field;
    }
  }

  /** Fields with a separator between any two of them. */
  function Joined(fields: seq<string>, separator: char): string
    requires fields != []
  {
    if |fields| == 1 then fields[0] else fields[0] + [separator] + Joined(fields[1..], separator)
  }

  lemma {:induction false} FieldsJoined(fields: seq<string>, separator: char)
    requires fields != [] && forall f | f in fields :: separator !in f
    ensures Fields(Joined(fields, separator), separator) == fields
  {
    if |fields| == 1 {
      LastField(fields[0], separator);
    } else {
      FirstField(fields[0], separator, Joined(fields[1..], separator));
      FieldsJoined(fields[1..], separator);
      assert fields == [fields[0]] + fields[1..];
    }
  }

  lemma JoinedPrefix(c: char, fields: seq<string>, separator: char)
    requires fields != []
    ensures Joined([[c] + fields[0]] + fields[1..], separator) == [c] + Joined(fields, separator)
  {
    var longer := [[c] + fields[0]] + fields[1..];
    assert longer[1..] == fields[1..];
  }

  /** Splitting loses nothing, and no field holds a separator. */
  lemma {:induction false} JoinedFields(s: string, separator: char)
    ensures Joined(Fields(s, separator), separator) == s
    ensures forall i | 0 <= i < |Fields(s, separator)| :: separator !in Fields(s, separator)[i]
  {
    if s != "" {
      JoinedFields(s[1..], separator);
      var rest := Fields(s[1..], separator);
      assert s == [s[0]] + s[1..];
      if s[0] != separator {
        JoinedPrefix(s[0], rest, separator);
      } else {
        assert ([""] + rest)[1..] == rest;
      }
    }
  }

  // ---------- Printing and decoding ----------

  datatype Decoded = Decoded(costs: Costs, salt: seq<Byte>, key: seq<Byte>)

  datatype Malformed = InvalidFormat | InvalidVersion | UnsupportedVersion | InvalidParams | InvalidSalt | InvalidHash

  datatype Result<+T> = Ok(value: T) | Err(error: Malformed)

  function CostsField(c: Costs): string {
    "m=" + (Decimal(c.memory) + (",t=" + (Decimal(c.iterations) + (",p=" + Decimal(c.parallelism)))))
  }

  function PhcFields(d: Decoded): seq<string> {
    ["", "argon2id", "v=" + Decimal(VERSION), CostsField(d.costs), Encode(d.salt), Encode(d.key)]
  }

  /** $argon2id$v=19$m=..,t=..,p=..$salt$key */
  function Print(d: Decoded): string {
    Joined(PhcFields(d), '$')
  }

  function DecodePhc(encoded: string): Result<Decoded> {
    var parts := Fields(encoded, '$');
    if |parts| != 6 || parts[1] != "argon2id" then Err(InvalidFormat)
    else
      var version := ScanVersion(parts[2]);
      if version.None? then Err(InvalidVersion)
      else if version.value != VERSION then Err(UnsupportedVersion)
      else
        var costs, salt, key := ScanCosts(parts[3]), Base64.Decode(parts[4]), Base64.Decode(parts[5]);
        if costs.None? then Err(InvalidParams)
        else if salt.None? then Err(InvalidSalt)
        else if key.None? then Err(InvalidHash)
        else Ok(Decoded(costs.value, salt.value, key.value))
  }

  /** The values fit the variables they are decoded into. */
  predicate Fits(c: Costs) {
    c.memory < UINT32 && c.iterations < UINT32 && c.parallelism < UINT8
  }

  lemma ScanPrintedField(literal: string, n: nat, rest: string, limit: nat)
    requires n < limit && (rest == "" || !IsDigit(rest[0]))
    ensures ScanField(literal + (Decimal(n) + rest), literal, limit) == Some(Scanned(n, rest))
  {
    ScanDecimal(n, rest, limit);
    assert (literal + (Decimal(n) + rest))[|literal|..] == Decimal(n) + rest;
  }

  lemma ScanCostsField(c: Costs)
    requires Fits(c)
    ensures ScanCosts(CostsField(c)) == Some(c)
  {
    var p := ",p=" + (Decimal(c.parallelism) + "");
    var t := ",t=" + (Decimal(c.iterations) + p);
    ScanPrintedField("m=", c.memory, t, UINT32);
    ScanPrintedField(",t=", c.iterations, p, UINT32);
    ScanPrintedField(",p=", c.parallelism, "", UINT8);
    assert Decimal(c.parallelism) + "" == Decimal(c.parallelism);
  }

  /** A number without a sign is scanned as it is. */
  lemma ScanUnsigned(n: nat)
    requires n < INT63
    ensures ScanInt(Decimal(n)) == Some((n, ""))
  {
    var s := Decimal(n);
    assert s[0] in s && s + "" == s;
    DigitsThenRest(s, "");
    ValueDecimal(n);
    assert SkipSpace(s) == Some(s);
  }

  lemma ScanVersionField()
    ensures ScanVersion("v=" + Decimal(VERSION)) == Some(VERSION)
  {
    ScanUnsigned(VERSION);
    assert ("v=" + Decimal(VERSION))[2..] == Decimal(VERSION);
  }

  lemma NoSeparator(d: Decoded)
    ensures forall f | f in PhcFields(d) :: '$' !in f
  {
    DecodeEncode(d.salt);
    DecodeEncode(d.key);
    forall f | f in PhcFields(d)
      ensures '$' !in f
    {
      if f == CostsField(d.costs) {
        assert forall c | c in f :: c in "m=,tp" || IsDigit(c);
      }
    }
  }

  /** Decoding what Hash prints gives back exactly the values printed. */
  lemma PhcRoundTrip(d: Decoded)
    requires Fits(d.costs)
    ensures DecodePhc(Print(d)) == Ok(d)
  {
    NoSeparator(d);
    FieldsJoined(PhcFields(d), '$');
    ScanVersionField();
    ScanCostsField(d.costs);
    DecodeEncode(d.salt);
    DecodeEncode(d.key);
  }

  /** Six fields: something, argon2id, version 19, and legible costs, salt and key. */
  predicate PhcShape(encoded: string, parts: seq<string>, d: Decoded) {
    && |parts| == 6 && encoded == Joined(parts, '$') && (forall i | 0 <= i < 6 :: '$' !in parts[i])
    && parts[1] == "argon2id" && ScanVersion(parts[2]) == Some(19)
    && ScanCosts(parts[3]) == Some(d.costs) && Base64.Decode(parts[4]) == Some(d.salt) && Base64.Decode(parts[5]) == Some(d.key)
  }

  /** Only strings of this shape decode. */
  lemma DecodesIff(encoded: string, d: Decoded)
    ensures DecodePhc(encoded) == Ok(d) <==> exists parts: seq<string> :: PhcShape(encoded, parts, d)
  {
    JoinedFields(encoded, '$');
    if DecodePhc(encoded) == Ok(d) {
      assert PhcShape(encoded, Fields(encoded, '$'), d);
    }
    if parts: seq<string> :| PhcShape(encoded, parts, d) {
      FieldsJoined(parts, '$');
    }
  }

  /** Whatever is decoded fits the variables it is decoded into. */
  lemma DecodedFits(encoded: string)
    ensures DecodePhc(encoded).Ok? ==> Fits(DecodePhc(encoded).value.costs)
  {
  }

  lemma DecimalStep(n: nat, last: char)
    requires n >= 10 && last == ('0' as int + n % 10) as char
    ensures Decimal(n) == Decimal(n / 10) + [last]
  {
  }

  lemma DefaultMemory()
    ensures Decimal(65536) == "65536"
  {
    DecimalStep(65536, '6');
    DecimalStep(6553, '3');
    DecimalStep(655, '5');
    DecimalStep(65, '5');
    assert Decimal(6) == "6";
  }

  lemma DefaultFields()
    ensures CostsField(DEFAULT.costs) == "m=65536,t=3,p=2" && "v=" + Decimal(VERSION) == "v=19"
  {
    DefaultMemory();
    DecimalStep(VERSION, '9');
    assert Decimal(1) == "1" && Decimal(3) == "3" && Decimal(2) == "2";
    var t := ",t=" + (Decimal(3) + (",p=" + Decimal(2)));
    assert t == ",t=3,p=2";
    assert CostsField(DEFAULT.costs) == "m=" + (Decimal(65536) + t);
  }

  /** The fields of a hash with the default costs, as the package documents them. */
  lemma DocumentedFormat(salt: seq<Byte>, key: seq<Byte>)
    ensures Fields(Print(Decoded(DEFAULT.costs, salt, key)), '$') ==
            ["", "argon2id", "v=19", "m=65536,t=3,p=2", Encode(salt), Encode(key)]
  {
    var d := Decoded(DEFAULT.costs, salt, key);
    NoSeparator(d);
    FieldsJoined(PhcFields(d), '$');
    DefaultFields();
  }

  /** No two parameter sets, salts or keys share a string. */
  lemma PrintInjective(d: Decoded, e: Decoded)
    requires Fits(d.costs) && Fits(e.costs) && Print(d) == Print(e)
    ensures d == e
  {
    PhcRoundTrip(d);
    PhcRoundTrip(e);
  }

  // ---------- Hashing and verifying ----------

  datatype Params = Params(costs: Costs, saltLength: nat, keyLength: nat)

  const DEFAULT := Params(Costs(64 * 1024, 3, 2), 16, 32)

  function OrElse(n: nat, default: nat): nat {
    if n == 0 then default else n
  }

  /** Zero parameters are filled in, so the library is never asked for zero rounds or lanes. */
  function NewHasher(p: Params): (r: Params)
    ensures r.costs.memory > 0 && r.costs.iterations > 0 && r.costs.parallelism > 0 && r.saltLength > 0 && r.keyLength > 0
    ensures NewHasherKeeps(p, r)
  {
    Params(Costs(OrElse(p.costs.memory, DEFAULT.costs.memory),
                 OrElse(p.costs.iterations, DEFAULT.costs.iterations),
                 OrElse(p.costs.parallelism, DEFAULT.costs.parallelism)),
           OrElse(p.saltLength, DEFAULT.saltLength),
           OrElse(p.keyLength, DEFAULT.keyLength))
  }

  /** Parameters that were given are kept, zero ones are the defaults, and all still fit their variables. */
  predicate NewHasherKeeps(p: Params, r: Params) {
    && r.costs.memory in {p.costs.memory, DEFAULT.costs.memory} && (p.costs.memory > 0 ==> r.costs.memory == p.costs.memory)
    && r.costs.iterations in {p.costs.iterations, DEFAULT.costs.iterations}
    && (p.costs.iterations > 0 ==> r.costs.iterations == p.costs.iterations)
    && r.costs.parallelism in {p.costs.parallelism, DEFAULT.costs.parallelism}
    && (p.costs.parallelism > 0 ==> r.costs.parallelism == p.costs.parallelism)
    && r.saltLength in {p.saltLength, DEFAULT.saltLength} && (p.saltLength > 0 ==> r.saltLength == p.saltLength)
    && r.keyLength in {p.keyLength, DEFAULT.keyLength} && (p.keyLength > 0 ==> r.keyLength == p.keyLength)
    && (Fits(p.costs) ==> Fits(r.costs))
  }

  function Derive(kdf: Kdf, password: string, salt: seq<Byte>, c: Costs, length: nat): seq<Byte> {
    kdf(password, salt, c.iterations, c.memory, c.parallelism, length)
  }

  /** The salt is the random bytes Hash read. */
  function Hash(kdf: Kdf, p: Params, password: string, salt: seq<Byte>): string {
    Print(Decoded(p.costs, salt, Derive(kdf, password, salt, p.costs, p.keyLength)))
  }

  datatype Verdict = Match | Mismatch | Unreadable(error: Malformed)

  function Verify(kdf: Kdf, password: string, encoded: string): Verdict {
    match DecodePhc(encoded)
    case Err(error) => Unreadable(error)
    case Ok(d) => if Derive(kdf, password, d.salt, d.costs, |d.key|) == d.key then Match else Mismatch
  }

  /** A hash verifies with its own password, and with another only when the derived keys are equal. */
  lemma VerifyHash(kdf: Kdf, p: Params, password: string, attempt: string, salt: seq<Byte>)
    requires KeyLengths(kdf) && Fits(p.costs)
    ensures Verify(kdf, password, Hash(kdf, p, password, salt)) == Match
    ensures Verify(kdf, attempt, Hash(kdf, p, password, salt)) ==
            if Derive(kdf, attempt, salt, p.costs, p.keyLength) == Derive(kdf, password, salt, p.costs, p.keyLength)
            then Match else Mismatch
  {
    PhcRoundTrip(Decoded(p.costs, salt, Derive(kdf, password, salt, p.costs, p.keyLength)));
  }

  /** What Hash prints: its costs, the salt, and the key derived from password, salt and costs. */
  lemma HashDecodes(kdf: Kdf, p: Params, password: string, salt: seq<Byte>)
    requires Fits(p.costs)
    ensures DecodePhc(Hash(kdf, p, password, salt)) ==
            Ok(Decoded(p.costs, salt, kdf(password, salt, p.costs.iterations, p.costs.memory, p.costs.parallelism, p.keyLength)))
  {
    PhcRoundTrip(Decoded(p.costs, salt, kdf(password, salt, p.costs.iterations, p.costs.memory, p.costs.parallelism, p.keyLength)));
  }

  /** Whatever the string: it verifies exactly when it decodes to a key that the password derives with its salt and costs. */
  lemma VerifyIff(kdf: Kdf, password: string, encoded: string)
    ensures Verify(kdf, password, encoded) == Match <==>
              exists d :: DecodePhc(encoded) == Ok(d) &&
                          kdf(password, d.salt, d.costs.iterations, d.costs.memory, d.costs.parallelism, |d.key|) == d.key
    ensures Verify(kdf, password, encoded).Unreadable? <==> DecodePhc(encoded).Err?
  {
    if DecodePhc(encoded).Ok? {
      assert DecodePhc(encoded) == Ok(DecodePhc(encoded).value);
    }
  }

  /** Hashes of one password under different salts differ. */
  lemma SaltedDifferently(kdf: Kdf, p: Params, password: string, salt: seq<Byte>, other: seq<Byte>)
    requires Fits(p.costs) && salt != other
    ensures Hash(kdf, p, password, salt) != Hash(kdf, p, password, other)
  {
    if Hash(kdf, p, password, salt) == Hash(kdf, p, password, other) {
      PrintInjective(Decoded(p.costs, salt, Derive(kdf, password, salt, p.costs, p.keyLength)),
                     Decoded(p.costs, other, Derive(kdf, password, other, p.costs, p.keyLength)));
    }
  }
}

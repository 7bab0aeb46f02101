/**
 * The stored form of a password hash (`crypto/password.go`): the PHC string that
 * `HashPasswordWithParams` writes and `VerifyPassword` takes apart. Base64 without padding
 * follows sections 3.2 and 4 of RFC 4648; Argon2 (RFC 9106) is a parameter.
 */
module PasswordHash {
  import opened Wrappers
  import opened Text
  import opened Decimal

  // ----- base64.RawStdEncoding --------------------------------------------------------------

  function Char64(v: nat): (c: char)
    requires v < 64
    ensures Value64(c) == Some(v) && c != '$' && c != '\r' && c != '\n'
  {
    if v < 26 then ('A' as int + v) as char
    else if v < 52 then ('a' as int + v - 26) as char
    else if v < 62 then ('0' as int + v - 52) as char
    else if v == 62 then '+' else '/'
  }

  function Value64(c: char): (v: Option<nat>)
    ensures v.Some? ==> v.value < 64
  {
    if 'A' <= c <= 'Z' then Some(c as int - 'A' as int)
    else if 'a' <= c <= 'z' then Some(c as int - 'a' as int + 26)
    else if '0' <= c <= '9' then Some(c as int - '0' as int + 52)
    else if c == '+' then Some(62)
    else if c == '/' then Some(63)
    else None
  }

  const ALPHABET := CAPITALS + SMALL_LETTERS + DIGITS + "+/"

  /** The alphabet of section 4 of RFC 4648. */
  function Letter(v: nat): char
    requires v < 64
  {
    assert |ALPHABET| == 64;
    ALPHABET[v]
  }

  lemma Alphabet(v: nat)
    requires v < 64
    ensures Char64(v) == Letter(v)
  {
    if v < 26 {
      assert CAPITALS[v] == ('A' as int + v) as char;
    } else if v < 52 {
      assert SMALL_LETTERS[v - 26] == ('a' as int + (v - 26)) as char;
    } else if v < 62 {
      assert DIGITS[v - 52] == ('0' as int + (v - 52)) as char;
    }
  }

  /** The four characters of a 24-bit number, most significant sextet first. */
  function Group(n: nat): (s: string)
    requires n < 0x100_0000
    ensures |s| == 4
  {
    [Char64(n / 262144), Char64(n / 4096 % 64), Char64(n / 64 % 64), Char64(n % 64)]
  }

  function Pack(a: byte, b: byte, c: byte): (n: nat)
    ensures n < 0x100_0000
  {
    a * 65536 + b * 256 + c
  }

  /** Three bytes become four characters; a tail of one or two bytes becomes two or three. */
  function Encode(b: seq<byte>): string {
    if b == [] then ""
    else if |b| == 1 then Group(Pack(b[0], 0, 0))[..2]
    else if |b| == 2 then Group(Pack(b[0], b[1], 0))[..3]
    else Group(Pack(b[0], b[1], b[2])) + Encode(b[3..])
  }

  /** Line breaks are skipped; the unused low bits of a tail are not checked. */
  function Decode(s: string): Option<seq<byte>> {
    DecodeGroups(WithoutBreaks(s))
  }

  function WithoutBreaks(s: string): string {
    if s == "" then "" else (if s[0] == '\r' || s[0] == '\n' then "" else [s[0]]) + WithoutBreaks(s[1..])
  }

  /** The number four characters stand for. */
  function Ungroup(s: string): (n: Option<nat>)
    requires |s| == 4
    ensures n.Some? ==> n.value < 0x100_0000
  {
    match (Value64(s[0]), Value64(s[1]), Value64(s[2]), Value64(s[3]))
    case (Some(a), Some(b), Some(c), Some(d)) => Some(a * 262144 + b * 4096 + c * 64 + d)
    case _ => None
  }

  function Unpack(n: nat): (b: seq<byte>)
    requires n < 0x100_0000
    ensures |b| == 3
  {
    [n / 65536, n / 256 % 256, n % 256]
  }

  function DecodeGroups(s: string): Option<seq<byte>> {
    if s == "" then Some([])
    else if |s| == 1 then None
    else if |s| == 2 then
      match Ungroup(s + "AA")
      case Some(n) => Some(Unpack(n)[..1])
      case None => None
    else if |s| == 3 then
      match Ungroup(s + "A")
      case Some(n) => Some(Unpack(n)[..2])
      case None => None
    else
      match (Ungroup(s[..4]), DecodeGroups(s[4..]))
      case (Some(n), Some(rest)) => Some(Unpack(n) + rest)
      case _ => None
  }

  lemma UngroupGroup(n: nat)
    requires n < 0x100_0000
    ensures Ungroup(Group(n)) == Some(n)
  {
    assert n / 64 / 64 == n / 4096 && n / 4096 / 64 == n / 262144;
  }

  lemma UnpackPack(a: byte, b: byte, c: byte)
    ensures Unpack(Pack(a, b, c)) == [a, b, c]
  {
    var n := Pack(a, b, c);
    DivMod(n, a * 256 + b, c, 256);
    DivMod(a * 256 + b, a, b, 256);
    DivMod(n, a, b * 256 + c, 65536);
  }

  lemma DivMod(n: nat, q: nat, r: nat, d: nat)
    requires d > 0 && n == q * d + r && r < d
    ensures n / d == q && n % d == r
  {
    var k := n / d - q;
    assert k * d == r - n % d;
    assert k >= 1 ==> k * d >= d;
    assert k <= -1 ==> k * d + d <= 0;
  }

  lemma {:induction false} DecodeEncoded(b: seq<byte>)
    ensures DecodeGroups(Encode(b)) == Some(b)
  {
    hide Group, Ungroup, Pack, Unpack;
    if |b| == 1 {
      PadGroup(b[0], 0);
      assert [b[0], 0, 0][..1] == b;
      UngroupGroup(Pack(b[0], 0, 0));
      UnpackPack(b[0], 0, 0);
    } else if |b| == 2 {
      PadGroup(b[0], b[1]);
      UngroupGroup(Pack(b[0], b[1], 0));
      UnpackPack(b[0], b[1], 0);
      assert [b[0], b[1], 0][..2] == b;
    } else if |b| >= 3 {
      DecodeEncoded(b[3..]);
      UngroupGroup(Pack(b[0], b[1], b[2]));
      UnpackPack(b[0], b[1], b[2]);
      assert Encode(b)[..4] == Group(Pack(b[0], b[1], b[2])) && Encode(b)[4..] == Encode(b[3..]);
      assert [b[0], b[1], b[2]] + b[3..] == b;
    }
  }

  /** The characters an encoded tail leaves out are the zero sextets. */
  lemma PadGroup(a: byte, b: byte)
    ensures Group(Pack(a, b, 0))[..3] + "A" == Group(Pack(a, b, 0))
    ensures Group(Pack(a, 0, 0))[..2] + "AA" == Group(Pack(a, 0, 0))
  {
    var n, m := Pack(a, b, 0), Pack(a, 0, 0);
    DivMod(n, a * 1024 + b * 4, 0, 64);
    DivMod(m, a * 1024, 0, 64);
    DivMod(a * 1024, a * 16, 0, 64);
    assert Char64(0) == 'A';
    hide Char64;
  }

  predicate Plain(s: string) {
    forall i :: 0 <= i < |s| ==> s[i] != '$' && s[i] != '\r' && s[i] != '\n'
  }

  lemma {:induction false} EncodePlain(b: seq<byte>)
    ensures Plain(Encode(b))
  {
    if |b| >= 3 {
      EncodePlain(b[3..]);
    }
  }

  lemma {:induction false} PlainUnchanged(s: string)
    requires Plain(s)
    ensures WithoutBreaks(s) == s
  {
    if s != "" {
      PlainUnchanged(s[1..]);
      assert [s[0]] + s[1..] == s;
    }
  }

  /** A line break anywhere in the text makes no difference to decoding. */
  lemma BreaksSkipped(a: string, c: char, b: string)
    requires c == '\r' || c == '\n'
    ensures Decode(a + [c] + b) == Decode(a + b)
  {
    WithoutBreak(a, c, b);
  }

  lemma {:induction false} WithoutBreak(a: string, c: char, b: string)
    requires c == '\r' || c == '\n'
    ensures WithoutBreaks(a + [c] + b) == WithoutBreaks(a + b)
  {
    if a == "" {
      assert ([c] + b)[1..] == b && a + [c] + b == [c] + b && a + b == b;
    } else {
      WithoutBreak(a[1..], c, b);
      assert (a + [c] + b)[1..] == a[1..] + [c] + b && (a + b)[1..] == a[1..] + b;
    }
  }

  /** `DecodeString` undoes `EncodeToString` on every byte string. */
  lemma Base64RoundTrip(b: seq<byte>)
    ensures Decode(Encode(b)) == Some(b)
  {
    EncodePlain(b);
    PlainUnchanged(Encode(b));
    DecodeEncoded(b);
  }

  /** A group of three bytes is the characters of its four sextets, by section 4 of RFC 4648. */
  lemma EncodedGroup(a: byte, b: byte, c: byte)
    ensures Encode([a, b, c]) == [Letter(a / 4), Letter(a % 4 * 16 + b / 16), Letter(b % 16 * 4 + c / 64), Letter(c % 64)]
  {
    hide Letter;
    GroupSextets(a, b, c);
    hide Group, Pack;
    assert [a, b, c][3..] == [] && Encode([]) == "";
    assert Encode([a, b, c]) == Group(Pack(a, b, c)) + "";
  }

  /** A tail of one or two bytes is the characters that its bits reach. */
  lemma EncodedTails(a: byte, b: byte)
    ensures Encode([a]) == [Letter(a / 4), Letter(a % 4 * 16)]
    ensures Encode([a, b]) == [Letter(a / 4), Letter(a % 4 * 16 + b / 16), Letter(b % 16 * 4)]
  {
    hide Letter;
    GroupSextets(a, 0, 0);
    GroupSextets(a, b, 0);
    hide Group, Pack;
  }

  lemma GroupSextets(a: byte, b: byte, c: byte)
    ensures Group(Pack(a, b, c)) == [Letter(a / 4), Letter(a % 4 * 16 + b / 16), Letter(b % 16 * 4 + c / 64), Letter(c % 64)]
  {
    hide Letter;
    var n := Pack(a, b, c);
    var s1, s2, s3 := a % 4 * 16 + b / 16, b % 16 * 4 + c / 64, c % 64;
    var high, middle := a / 4 * 64 + s1, (a / 4 * 64 + s1) * 64 + s2;
    assert n == middle * 64 + s3;
    DivMod(n, middle, s3, 64);
    DivMod(middle, high, s2, 64);
    DivMod(high, a / 4, s1, 64);
    assert n / 4096 == n / 64 / 64 && n / 262144 == n / 4096 / 64;
    hide Char64;
    Alphabet(a / 4);
    Alphabet(s1);
    Alphabet(s2);
    Alphabet(s3);
  }

  /** Groups are encoded one after the other. */
  lemma EncodedGroups(a: byte, b: byte, c: byte, rest: seq<byte>)
    ensures Encode([a, b, c] + rest) == Encode([a, b, c]) + Encode(rest)
  {
    hide Group, Pack;
    assert ([a, b, c] + rest)[3..] == rest && [a, b, c][3..] == [] && Encode([]) == "";
    assert Group(Pack(a, b, c)) + "" == Group(Pack(a, b, c));
  }

  // ----- the stored string ------------------------------------------------------------------

  const VERSION := 19
  const MAX_UINT32 := 0xFFFF_FFFF
  const MAX_UINT8 := 0xFF

  datatype Params = Params(memory: nat, iterations: nat, parallelism: nat) {
    predicate InRange() {
      memory <= MAX_UINT32 && iterations <= MAX_UINT32 && parallelism <= MAX_UINT8
    }
  }

  /** `argon2.IDKey`: password, salt, cost parameters and key length to a key, or a panic. */
  type Kdf = (string, seq<byte>, Params, nat) -> Option<seq<byte>>

  function ParamsText(p: Params): string {
    "m=" + Print(p.memory) + ",t=" + Print(p.iterations) + ",p=" + Print(p.parallelism)
  }

  function Format(p: Params, salt: seq<byte>, key: seq<byte>): string {
    Join(["", "argon2id", "v=" + Print(VERSION), ParamsText(p), Encode(salt), Encode(key)], "$")
  }

  /** The stored string in full. */
  lemma FormatText(p: Params, salt: seq<byte>, key: seq<byte>)
    ensures Format(p, salt, key)
         == "$argon2id$v=19$" + ParamsText(p) + "$" + Encode(salt) + "$" + Encode(key)
    ensures ParamsText(p) == "m=" + Print(p.memory) + ",t=" + Print(p.iterations) + ",p=" + Print(p.parallelism)
  {
    HeaderText();
    hide Encode, Print, Join;
    SixParts("", "argon2id", "v=19", ParamsText(p), Encode(salt), Encode(key), "$");
  }

  lemma HeaderText()
    ensures "v=" + Print(VERSION) == "v=19" && "" + "$" + "argon2id" + "$" + "v=19" + "$" == "$argon2id$v=19$"
  {
    assert Print(19) == Print(1) + [Digit(9)] && Print(1) == [Digit(1)];
  }

  lemma SixParts(a: string, b: string, c: string, d: string, e: string, f: string, sep: string)
    ensures Join([a, b, c, d, e, f], sep) == (a + sep + b + sep + c + sep) + d + sep + e + sep + f
  {
    hide Join;
    JoinStep(a, [b, c, d, e, f], sep);
    JoinStep(b, [c, d, e, f], sep);
    JoinStep(c, [d, e, f], sep);
    JoinStep(d, [e, f], sep);
    JoinStep(e, [f], sep);
    JoinOne(f, sep);
    assert [a] + [b, c, d, e, f] == [a, b, c, d, e, f];
    assert [b] + [c, d, e, f] == [b, c, d, e, f];
    assert [c] + [d, e, f] == [c, d, e, f];
    assert [d] + [e, f] == [d, e, f];
    assert [e] + [f] == [e, f];
    SixRegrouped(a, b, c, d, e, f, sep);
  }

  lemma SixRegrouped(a: string, b: string, c: string, d: string, e: string, f: string, sep: string)
    ensures a + sep + (b + sep + (c + sep + (d + sep + (e + sep + f)))) == (a + sep + b + sep + c + sep) + d + sep + e + sep + f
  {}

  lemma JoinOne(part: string, sep: string)
    ensures Join([part], sep) == part
  {}

  lemma JoinStep(first: string, rest: seq<string>, sep: string)
    requires rest != []
    ensures Join([first] + rest, sep) == first + sep + Join(rest, sep)
  {
    assert ([first] + rest)[1..] == rest;
  }

  /** `HashPasswordWithParams`, the salt being the random bytes it drew. */
  function HashPassword(kdf: Kdf, password: string, p: Params, keyLength: nat, salt: seq<byte>): Option<string> {
    match kdf(password, salt, p, keyLength)
    case Some(key) => Some(Format(p, salt, key))
    case None => None
  }

  /** A literal of the scan format, which must be met exactly, and then an unsigned numeral. */
  function ScanField(s: string, literal: string, max: nat): Option<(nat, string)> {
    match StripPrefix(s, literal)
    case Some(t) => ScanUnsigned(t, max)
    case None => None
  }

  function ScanVersion(s: string): Option<(int, string)> {
    match StripPrefix(s, "v=")
    case Some(t) => ScanSigned(t)
    case None => None
  }

  function ScanParams(s: string): Option<Params> {
    match ScanField(s, "m=", MAX_UINT32)
    case None => None
    case Some((m, afterM)) =>
      match ScanField(afterM, ",t=", MAX_UINT32)
      case None => None
      case Some((t, afterT)) =>
        match ScanField(afterT, ",p=", MAX_UINT8)
        case None => None
        case Some((p, _)) => Some(Params(m, t, p))
  }

  datatype Stored = Stored(params: Params, salt: seq<byte>, key: seq<byte>)

  function Parse(encoded: string): Option<Stored> {
    var parts := Split(encoded, '$');
    if |parts| != 6 || ScanVersion(parts[2]).None? then None
    else
      match (ScanParams(parts[3]), Decode(parts[4]), Decode(parts[5]))
      case (Some(p), Some(salt), Some(key)) => Some(Stored(p, salt, key))
      case _ => None
  }

  datatype Verdict = Checked(matches: bool) | Malformed | Panicked

  function VerifyPassword(kdf: Kdf, password: string, encoded: string): Verdict {
    match Parse(encoded)
    case None => Malformed
    case Some(stored) =>
      match kdf(password, stored.salt, stored.params, |stored.key| % (MAX_UINT32 + 1))
      case Some(key) => Checked(key == stored.key)
      case None => Panicked
  }

  // ----- the codec's laws -------------------------------------------------------------------

  lemma ScanFieldPrinted(literal: string, n: nat, rest: string, max: nat)
    requires n <= max && !StartsWithDigit(rest)
    ensures ScanField(literal + Print(n) + rest, literal, max) == Some((n, rest))
  {
    var s := literal + Print(n) + rest;
    assert s[|literal|..] == Print(n) + rest;
    ScanUnsignedPrinted(n, rest, max);
  }

  lemma ParamsRoundTrip(p: Params)
    requires p.InRange()
    ensures ScanParams(ParamsText(p)) == Some(p)
  {
    var afterT := ",p=" + Print(p.parallelism);
    var afterM := ",t=" + Print(p.iterations) + afterT;
    assert ParamsText(p) == "m=" + Print(p.memory) + afterM;
    ScanFieldPrinted("m=", p.memory, afterM, MAX_UINT32);
    ScanFieldPrinted(",t=", p.iterations, afterT, MAX_UINT32);
    assert afterT == ",p=" + Print(p.parallelism) + "";
    ScanFieldPrinted(",p=", p.parallelism, "", MAX_UINT8);
  }

  lemma NoDollarInParts(before: string, algorithm: string, version: int, p: Params, salt: seq<byte>, key: seq<byte>)
    requires '$' !in before && '$' !in algorithm
    ensures forall part :: part in [before, algorithm, "v=" + PrintInt(version), ParamsText(p), Encode(salt), Encode(key)]
              ==> '$' !in part
  {
    hide Print, Encode;
    EncodePlain(salt);
    EncodePlain(key);
  }

  /**
   * Any prefix, algorithm name and version number in the header: the parser looks at neither of
   * the first two parts and only asks the third to hold a number.
   */
  lemma ParseAnyHeader(before: string, algorithm: string, version: int, p: Params, salt: seq<byte>, key: seq<byte>)
    requires '$' !in before && '$' !in algorithm && IsInt64(version) && p.InRange()
    ensures Parse(Join([before, algorithm, "v=" + PrintInt(version), ParamsText(p), Encode(salt), Encode(key)], "$"))
         == Some(Stored(p, salt, key))
  {
    var parts := [before, algorithm, "v=" + PrintInt(version), ParamsText(p), Encode(salt), Encode(key)];
    hide Print, PrintInt, ParamsText, Encode, Decode, ScanParams, ScanSigned, Join, Split;
    NoDollarInParts(before, algorithm, version, p, salt, key);
    SplitJoin(parts, '$');
    assert parts[2][2..] == PrintInt(version) + "";
    ScanSignedPrinted(version, "");
    ParamsRoundTrip(p);
    Base64RoundTrip(salt);
    Base64RoundTrip(key);
  }

  /** Parsing recovers the parameters, the salt and the key that were formatted. */
  lemma ParseOfFormat(p: Params, salt: seq<byte>, key: seq<byte>)
    requires p.InRange()
    ensures Parse(Format(p, salt, key)) == Some(Stored(p, salt, key))
  {
    ParseAnyHeader("", "argon2id", VERSION, p, salt, key);
  }

  /** Distinct salts, keys or parameters are never stored as the same string. */
  lemma FormatInjective(p: Params, salt: seq<byte>, key: seq<byte>, p': Params, salt': seq<byte>, key': seq<byte>)
    requires p.InRange() && p'.InRange() && Format(p, salt, key) == Format(p', salt', key')
    ensures p == p' && salt == salt' && key == key'
  {
    ParseOfFormat(p, salt, key);
    ParseOfFormat(p', salt', key');
  }

  /**
   * What was hashed is verified: for every candidate password the answer is whether its key, derived
   * with the stored salt and parameters, is the stored key; so the password itself is accepted.
   */
  lemma VerifyHashed(kdf: Kdf, password: string, p: Params, keyLength: nat, salt: seq<byte>, candidate: string)
    requires p.InRange() && keyLength <= MAX_UINT32
    requires forall w, s, q, n :: kdf(w, s, q, n).Some? ==> |kdf(w, s, q, n).value| == n
    requires HashPassword(kdf, password, p, keyLength, salt).Some?
    ensures var stored := HashPassword(kdf, password, p, keyLength, salt).value;
      && VerifyPassword(kdf, password, stored) == Checked(true)
      && (VerifyPassword(kdf, candidate, stored) == Checked(true)
          <==> kdf(candidate, salt, p, keyLength) == kdf(password, salt, p, keyLength))
      && VerifyPassword(kdf, candidate, stored) != Malformed
  {
    hide Format, Parse;
    ParseOfFormat(p, salt, kdf(password, salt, p, keyLength).value);
  }
}

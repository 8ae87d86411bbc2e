/** internal/pairing/token.go: the pairing token. The hash, and the DER codec of public keys,
    are parameters. */
module Pairing {
  import opened Bytes
  import opened Handshake

  // ----- base64url without padding, section 5 of RFC 4648 -----

  type Sextet = n: int | 0 <= n < 64

  function Symbol(n: Sextet): char {
    if n < 26 then ('A' as int + n) as char
    else if n < 52 then ('a' as int + (n - 26)) as char
    else if n < 62 then ('0' as int + (n - 52)) as char
    else if n == 62 then '-' else '_'
  }

  function Value(c: char): Option<Sextet> {
    if 'A' <= c <= 'Z' then Some(c as int - 'A' as int)
    else if 'a' <= c <= 'z' then Some(c as int - 'a' as int + 26)
    else if '0' <= c <= '9' then Some(c as int - '0' as int + 52)
    else if c == '-' then Some(62)
    else if c == '_' then Some(63)
    else None
  }

  /** Bytes as sextets, three to four; the spare bits of a short end are zero. */
  function Sextets(data: bytes): seq<Sextet> {
    if data == [] then []
    else if |data| == 1 then [data[0] / 4, Sextet1(data[0], 0)]
    else if |data| == 2 then [data[0] / 4, Sextet1(data[0], data[1]), Sextet2(data[1], 0)]
    else [data[0] / 4, Sextet1(data[0], data[1]), Sextet2(data[1], data[2]), data[2] % 64] + Sextets(data[3..])
  }

  function Sextet1(a: byte, b: byte): Sextet {
    16 * (a % 4) + b / 16
  }

  function Sextet2(b: byte, c: byte): Sextet {
    4 * (b % 16) + c / 64
  }

  function Symbols(v: seq<Sextet>): string {
    if v == [] then "" else [Symbol(v[0])] + Symbols(v[1..])
  }

  /** `RawURLEncoding.EncodeToString` */
  function Encode64(data: bytes): string {
    Symbols(Sextets(data))
  }

  function WithoutBreaks(s: string): string {
    if s == "" then "" else (if s[0] == '\r' || s[0] == '\n' then "" else [s[0]]) + WithoutBreaks(s[1..])
  }

  function Values(s: string): Option<seq<Sextet>> {
    if s == "" then Some([])
    else
      match (Value(s[0]), Values(s[1..]))
      case (Some(v), Some(rest)) => Some([v] + rest)
      case _ => None
  }

  function Byte0(a: int, b: int): byte
    requires 0 <= a < 64 && 0 <= b < 64
  {
    4 * a + b / 16
  }

  function Byte1(a: int, b: int): byte
    requires 0 <= a < 64 && 0 <= b < 64
  {
    16 * (a % 16) + b / 4
  }

  function Byte2(a: int, b: int): byte
    requires 0 <= a < 64 && 0 <= b < 64
  {
    64 * (a % 4) + b
  }

  /** Quanta of four; a short last one gives one or two bytes, whatever its spare bits are. */
  function FromSextets(v: seq<Sextet>): Result<bytes> {
    if v == [] then Ok([])
    else if |v| == 1 then Err("illegal base64 data")
    else if |v| == 2 then Ok([Byte0(v[0], v[1])])
    else if |v| == 3 then Ok([Byte0(v[0], v[1]), Byte1(v[1], v[2])])
    else
      var rest :- FromSextets(v[4..]);
      Ok([Byte0(v[0], v[1]), Byte1(v[1], v[2]), Byte2(v[2], v[3])] + rest)
  }

  /** `RawURLEncoding.DecodeString`: line breaks are skipped wherever they stand. */
  function Decode64(s: string): Result<bytes> {
    match Values(WithoutBreaks(s))
    case None => Err("illegal base64 data")
    case Some(v) => FromSextets(v)
  }

  // ----- white space -----

  /** `unicode.IsSpace` */
  predicate IsSpace(c: char) {
    || c in "\t\n\r \U{0b}\U{0c}\U{85}\U{a0}\U{1680}\U{2028}\U{2029}\U{202f}\U{205f}\U{3000}"
    || '\U{2000}' <= c <= '\U{200a}'
  }

  function TrimLeft(s: string): string {
    if s != "" && IsSpace(s[0]) then TrimLeft(s[1..]) else s
  }

  function TrimRight(s: string): string {
    if s != "" && IsSpace(s[|s| - 1]) then TrimRight(s[..|s| - 1]) else s
  }

  /** `strings.TrimSpace` */
  function TrimSpace(s: string): string {
    TrimRight(TrimLeft(s))
  }

  // ----- the token -----

  /** The DER form of public keys: `parse` gives nothing for what is no key, and no identity
      for a key that is not RSA. */
  datatype Der = Der(marshal: Identity -> bytes, parse: bytes -> Option<Option<Identity>>) {
    /** Encoding and parsing are inverse to each other. */
    ghost predicate Laws() {
      && (forall i :: 0 < |marshal(i)| && parse(marshal(i)) == Some(Some(i)))
      && (forall d, i :: parse(d) == Some(Some(i)) ==> d == marshal(i))
    }
  }

  const TOKEN_PREFIX := "UDF2-"
  const TOKEN_VERSION: byte := 1
  const SECRET_SIZE := 32
  const CHECKSUM_SIZE := 8
  const IDENTITY_OFFSET := 1 + SECRET_SIZE + 2

  /** What the token carries, before its checksum. */
  function Body(secret: bytes, der: bytes): bytes {
    [TOKEN_VERSION] + secret + ToBE(|der|, 2) + der
  }

  function Checksum(hash: bytes -> bytes, body: bytes): bytes
    requires |hash(body)| == HASH_SIZE
  {
    hash(body)[..CHECKSUM_SIZE]
  }

  function EncodeToken(hash: bytes -> bytes, der: Der, secret: bytes, identity: Identity): Result<string>
    requires forall m :: |hash(m)| == HASH_SIZE
  {
    if |secret| != SECRET_SIZE then Err("pairing shared secret must be exactly 32 bytes")
    else if !GoodSize(identity.bits) then Err("pairing RSA identity must be between 2048 and 4096 bits")
    else if |der.marshal(identity)| > 65535 then Err("pairing RSA identity is too large")
    else
      var body := Body(secret, der.marshal(identity));
      Ok(TOKEN_PREFIX + Encode64(body + Checksum(hash, body)))
  }

  /** `Encode`, which fills its body in place. */
  method Encode(hash: bytes -> bytes, der: Der, secret: bytes, identity: Identity) returns (r: Result<string>)
    requires forall m :: |hash(m)| == HASH_SIZE
    ensures r == EncodeToken(hash, der, secret, identity)
  {
    if |secret| != SECRET_SIZE {
      return Err("pairing shared secret must be exactly 32 bytes");
    }
    if !GoodSize(identity.bits) {
      return Err("pairing RSA identity must be between 2048 and 4096 bits");
    }
    var d := der.marshal(identity);
    if |d| > 65535 {
      return Err("pairing RSA identity is too large");
    }
    var body := new byte[IDENTITY_OFFSET + |d|](_ => 0);
    body[0] := TOKEN_VERSION;
    forall i | 0 <= i < SECRET_SIZE {
      body[1 + i] := secret[i];
    }
    var length := ToBE(|d|, 2);
    forall i | 0 <= i < 2 {
      body[1 + SECRET_SIZE + i] := length[i];
    }
    forall i | 0 <= i < |d| {
      body[IDENTITY_OFFSET + i] := d[i];
    }
    assert body[..] == Body(secret, d);
    return Ok(TOKEN_PREFIX + Encode64(body[..] + Checksum(hash, body[..])));
  }

  function Decode(hash: bytes -> bytes, der: Der, token: string): Result<(bytes, Identity)>
    requires forall m :: |hash(m)| == HASH_SIZE
  {
    DecodeTrimmed(hash, der, TrimSpace(token))
  }

  function DecodeTrimmed(hash: bytes -> bytes, der: Der, trimmed: string): Result<(bytes, Identity)>
    requires forall m :: |hash(m)| == HASH_SIZE
  {
    if !(TOKEN_PREFIX <= trimmed) then Err("pairing token must start with UDF2-")
    else
      var encodedPayload := trimmed[|TOKEN_PREFIX|..];
      var payload :- Decode64(encodedPayload);
      if Encode64(payload) != encodedPayload then Err("pairing token is not canonical base64url")
      else if |payload| < IDENTITY_OFFSET + 1 + CHECKSUM_SIZE then Err("pairing token is too short")
      else
        var body := payload[..|payload| - CHECKSUM_SIZE];
        if payload[|payload| - CHECKSUM_SIZE..] != Checksum(hash, body) then Err("pairing token checksum does not match")
        else if body[0] != TOKEN_VERSION then Err("pairing token version is not supported")
        else
          var identityLength := Decode16(body[1 + SECRET_SIZE..IDENTITY_OFFSET]);
          if identityLength == 0 || IDENTITY_OFFSET + identityLength != |body| then
            Err("pairing token RSA identity length is invalid")
          else
            match der.parse(body[IDENTITY_OFFSET..])
            case None => Err("pairing token RSA identity is invalid")
            case Some(None) => Err("pairing token does not contain a supported RSA identity")
            case Some(Some(identity)) =>
              if !GoodSize(identity.bits) then Err("pairing token does not contain a supported RSA identity")
              else Ok((body[1..1 + SECRET_SIZE], identity))
  }

  // ----- base64 round trip -----

  lemma ValueOfSymbol(n: Sextet)
    ensures Value(Symbol(n)) == Some(n)
    ensures !IsSpace(Symbol(n)) && Symbol(n) != '\r' && Symbol(n) != '\n'
  {}

  lemma {:induction false} SymbolsMean(v: seq<Sextet>)
    ensures WithoutBreaks(Symbols(v)) == Symbols(v) && Values(Symbols(v)) == Some(v)
    ensures forall c <- Symbols(v) :: !IsSpace(c)
  {
    if v != [] {
      ValueOfSymbol(v[0]);
      SymbolsMean(v[1..]);
      FirstSymbol(Symbol(v[0]), Symbols(v[1..]));
      assert v == [v[0]] + v[1..];
    }
  }

  lemma FirstSymbol(c: char, s: string)
    requires c != '\r' && c != '\n' && Value(c).Some? && Values(s).Some?
    ensures WithoutBreaks([c] + s) == [c] + WithoutBreaks(s)
    ensures Values([c] + s) == Some([Value(c).value] + Values(s).value)
  {
    assert ([c] + s)[1..] == s;
  }

  lemma Quantum(a: byte, b: byte, c: byte)
    ensures Byte0(a / 4, Sextet1(a, b)) == a
    ensures Byte1(Sextet1(a, b), Sextet2(b, c)) == b
    ensures Byte2(Sextet2(b, c), c % 64) == c
  {}

  lemma OneByte(a: byte)
    ensures FromSextets([a / 4, Sextet1(a, 0)]) == Ok([a])
  {
    Quantum(a, 0, 0);
  }

  lemma TwoBytes(a: byte, b: byte)
    ensures FromSextets([a / 4, Sextet1(a, b), Sextet2(b, 0)]) == Ok([a, b])
  {
    Quantum(a, b, 0);
  }

  lemma ThreeBytes(a: byte, b: byte, c: byte, v: seq<Sextet>)
    requires FromSextets(v).Ok?
    ensures FromSextets([a / 4, Sextet1(a, b), Sextet2(b, c), c % 64] + v) == Ok([a, b, c] + FromSextets(v).value)
  {
    Quantum(a, b, c);
    FourMore(a / 4, Sextet1(a, b), Sextet2(b, c), c % 64, v);
  }

  lemma {:induction false} SextetsMean(data: bytes)
    ensures FromSextets(Sextets(data)) == Ok(data)
  {
    if |data| == 1 {
      OneByte(data[0]);
      assert data == [data[0]];
    } else if |data| == 2 {
      TwoBytes(data[0], data[1]);
      assert data == [data[0], data[1]];
    } else if data != [] {
      SextetsMean(data[3..]);
      ThreeBytes(data[0], data[1], data[2], Sextets(data[3..]));
      assert data == [data[0], data[1], data[2]] + data[3..];
    }
  }

  lemma FourMore(p: Sextet, q: Sextet, r: Sextet, s: Sextet, v: seq<Sextet>)
    requires FromSextets(v).Ok?
    ensures FromSextets([p, q, r, s] + v) == Ok([Byte0(p, q), Byte1(q, r), Byte2(r, s)] + FromSextets(v).value)
  {
    assert ([p, q, r, s] + v)[4..] == v;
  }

  lemma Decode64Encode64(data: bytes)
    ensures Decode64(Encode64(data)) == Ok(data)
    ensures forall c <- Encode64(data) :: !IsSpace(c)
  {
    SextetsMean(data);
    SymbolsMean(Sextets(data));
  }

  // ----- trimming -----

  lemma {:induction false} TrimLeftSkips(left: string, s: string)
    requires forall c <- left :: IsSpace(c)
    requires s != "" && !IsSpace(s[0])
    ensures TrimLeft(left + s) == s
  {
    if left != "" {
      assert left[0] in left && (left + s)[1..] == left[1..] + s;
      TrimLeftSkips(left[1..], s);
    } else {
      assert left + s == s;
    }
  }

  lemma {:induction false} TrimRightSkips(s: string, right: string)
    requires forall c <- right :: IsSpace(c)
    requires s != "" && !IsSpace(s[|s| - 1])
    ensures TrimRight(s + right) == s
  {
    if right != "" {
      assert right[|right| - 1] in right && (s + right)[..|s + right| - 1] == s + right[..|right| - 1];
      TrimRightSkips(s, right[..|right| - 1]);
    } else {
      assert s + right == s;
    }
  }

  // ----- the token, both ways -----

  lemma BodyParts(secret: bytes, der: bytes)
    requires |secret| == SECRET_SIZE && 0 < |der| <= 65535
    ensures var body := Body(secret, der);
            && |body| == IDENTITY_OFFSET + |der| && body[0] == TOKEN_VERSION
            && body[1..1 + SECRET_SIZE] == secret
            && Decode16(body[1 + SECRET_SIZE..IDENTITY_OFFSET]) == |der|
            && body[IDENTITY_OFFSET..] == der
  {
    var body := Body(secret, der);
    Widths();
    FromToBE(|der|, 2);
    assert body[1 + SECRET_SIZE..IDENTITY_OFFSET] == ToBE(|der|, 2);
  }

  lemma FourPieces(body: bytes)
    requires |body| > IDENTITY_OFFSET
    ensures body == [body[0]] + body[1..1 + SECRET_SIZE] + body[1 + SECRET_SIZE..IDENTITY_OFFSET] + body[IDENTITY_OFFSET..]
  {}

  lemma PartsBody(body: bytes)
    requires |body| > IDENTITY_OFFSET && body[0] == TOKEN_VERSION
    requires Decode16(body[1 + SECRET_SIZE..IDENTITY_OFFSET]) == |body| - IDENTITY_OFFSET
    ensures body == Body(body[1..1 + SECRET_SIZE], body[IDENTITY_OFFSET..])
  {
    var size := body[1 + SECRET_SIZE..IDENTITY_OFFSET];
    ToFromBE(size);
    assert FromBE(size) == |body| - IDENTITY_OFFSET == |body[IDENTITY_OFFSET..]|;
    assert |size| == 2 && ToBE(FromBE(size), 2) == size;
    FourPieces(body);
  }

  lemma TokenDecodesTrimmed(hash: bytes -> bytes, der: Der, secret: bytes, identity: Identity)
    requires (forall m :: |hash(m)| == HASH_SIZE) && der.Laws()
    requires EncodeToken(hash, der, secret, identity).Ok?
    ensures DecodeTrimmed(hash, der, EncodeToken(hash, der, secret, identity).value) == Ok((secret, identity))
  {
    var d := der.marshal(identity);
    var body := Body(secret, d);
    var payload := body + Checksum(hash, body);
    BodyParts(secret, d);
    Decode64Encode64(payload);
    assert (TOKEN_PREFIX + Encode64(payload))[|TOKEN_PREFIX|..] == Encode64(payload);
    assert payload[..|payload| - CHECKSUM_SIZE] == body;
    assert payload[|payload| - CHECKSUM_SIZE..] == Checksum(hash, body);
  }

  /** The token of every 32-byte secret and supported identity decodes to both, whatever white
      space surrounds it. */
  lemma TokenDecodes(hash: bytes -> bytes, der: Der, secret: bytes, identity: Identity, left: string, right: string)
    requires (forall m :: |hash(m)| == HASH_SIZE) && der.Laws()
    requires |secret| == SECRET_SIZE && GoodSize(identity.bits) && |der.marshal(identity)| <= 65535
    requires (forall c <- left :: IsSpace(c)) && (forall c <- right :: IsSpace(c))
    ensures EncodeToken(hash, der, secret, identity).Ok?
    ensures Decode(hash, der, left + EncodeToken(hash, der, secret, identity).value + right) == Ok((secret, identity))
  {
    TokenDecodesTrimmed(hash, der, secret, identity);
    var body := Body(secret, der.marshal(identity));
    TokenTrims(body + Checksum(hash, body), left, right);
  }

  lemma TokenTrims(payload: bytes, left: string, right: string)
    requires (forall c <- left :: IsSpace(c)) && (forall c <- right :: IsSpace(c))
    ensures TrimSpace(left + (TOKEN_PREFIX + Encode64(payload)) + right) == TOKEN_PREFIX + Encode64(payload)
  {
    var token := TOKEN_PREFIX + Encode64(payload);
    Decode64Encode64(payload);
    var last := token[|token| - 1];
    assert last == '-' || last in Encode64(payload);
    assert left + token + right == left + (token + right);
    assert token[0] == 'U' && (token + right)[0] == 'U';
    TrimLeftSkips(left, token + right);
    TrimRightSkips(token, right);
  }

  /** Each secret and identity has exactly one accepted spelling, up to surrounding white space. */
  lemma OneSpelling(hash: bytes -> bytes, der: Der, token: string, secret: bytes, identity: Identity)
    requires (forall m :: |hash(m)| == HASH_SIZE) && der.Laws()
    ensures Decode(hash, der, token) == Ok((secret, identity)) <==>
              EncodeToken(hash, der, secret, identity) == Ok(TrimSpace(token))
  {
    if Decode(hash, der, token) == Ok((secret, identity)) {
      Spelled(hash, der, TrimSpace(token), secret, identity);
    }
    if EncodeToken(hash, der, secret, identity) == Ok(TrimSpace(token)) {
      TokenDecodesTrimmed(hash, der, secret, identity);
    }
  }

  lemma Spelled(hash: bytes -> bytes, der: Der, trimmed: string, secret: bytes, identity: Identity)
    requires (forall m :: |hash(m)| == HASH_SIZE) && der.Laws()
    requires DecodeTrimmed(hash, der, trimmed) == Ok((secret, identity))
    ensures EncodeToken(hash, der, secret, identity) == Ok(trimmed)
  {
    var encodedPayload := trimmed[|TOKEN_PREFIX|..];
    var payload := Decode64(encodedPayload).value;
    var body := payload[..|payload| - CHECKSUM_SIZE];
    PartsBody(body);
    assert payload == body + Checksum(hash, body);
    assert trimmed == TOKEN_PREFIX + encodedPayload;
  }

  // ----- the token, character by character -----

  /** The URL and filename safe alphabet, table 2 of RFC 4648. */
  const ALPHABET := "ABCDEFGHIJKLMNOPQRSTUVWXYZ" + "abcdefghijklmnopqrstuvwxyz" + "0123456789-_"

  lemma SymbolIsLetter(n: Sextet)
    ensures |ALPHABET| == 64 && Symbol(n) == ALPHABET[n]
  {}

  lemma {:induction false} SymbolsAt(v: seq<Sextet>, k: nat)
    requires k < |v|
    ensures |Symbols(v)| == |v| && Symbols(v)[k] == Symbol(v[k])
    decreases |v|
  {
    if k > 0 {
      SymbolsAt(v[1..], k - 1);
    } else if |v| > 1 {
      SymbolsAt(v[1..], 0);
    }
  }

  /** Base64url writes the sextets with the letters of that table. */
  lemma LettersOfSextets(data: bytes, k: nat)
    requires k < |Sextets(data)|
    ensures |ALPHABET| == 64 && |Encode64(data)| == |Sextets(data)| && Encode64(data)[k] == ALPHABET[Sextets(data)[k]]
  {
    SymbolsAt(Sextets(data), k);
    SymbolIsLetter(Sextets(data)[k]);
  }

  /** The number three bytes stand for, most significant first. */
  function Number(a: byte, b: byte, c: byte): nat {
    0x1_0000 * (a as int) + 0x100 * (b as int) + (c as int)
  }

  lemma High(m: nat, r: nat)
    ensures r < 0x40 ==> (0x40 * m + r) / 0x40 == m && (0x40 * m + r) % 0x40 == r
    ensures r < 0x1000 ==> (0x1000 * m + r) / 0x1000 == m
    ensures r < 0x4_0000 ==> (0x4_0000 * m + r) / 0x4_0000 == m
  {}

  lemma FourDigits(w: Sextet, x: Sextet, y: Sextet, z: Sextet)
    ensures var n := 0x4_0000 * (w as int) + 0x1000 * (x as int) + 0x40 * (y as int) + (z as int);
            n / 0x4_0000 == w && n / 0x1000 % 0x40 == x && n / 0x40 % 0x40 == y && n % 0x40 == z
  {
    var m1: nat := 0x40 * (w as int) + (x as int);
    var m2 := 0x40 * m1 + (y as int);
    High(w, x);
    High(m1, y);
    High(m2, z);
    High(m1, 0x40 * (y as int) + (z as int));
    High(w, 0x1000 * (x as int) + 0x40 * (y as int) + (z as int));
  }

  lemma InDigits(a: byte, b: byte, c: byte)
    ensures Number(a, b, c)
         == 0x4_0000 * (a / 4) + 0x1000 * (Sextet1(a, b) as int) + 0x40 * (Sextet2(b, c) as int) + c % 64
  {
    assert a == 4 * (a / 4) + a % 4 && b == 16 * (b / 16) + b % 16 && c == 64 * (c / 64) + c % 64;
  }

  /** Its digits to base 64. */
  lemma Digits64(a: byte, b: byte, c: byte)
    ensures var n := Number(a, b, c);
            && a / 4 == n / 0x4_0000 && Sextet1(a, b) == n / 0x1000 % 0x40
            && Sextet2(b, c) == n / 0x40 % 0x40 && c % 64 == n % 0x40
  {
    InDigits(a, b, c);
    FourDigits(a / 4, Sextet1(a, b), Sextet2(b, c), c % 64);
  }

  /** The sextets of three bytes are the digits to base 64 of their number. One or two bytes left
      over are completed with zeros, and only the digits their own bits reach are written. */
  lemma SextetsAreDigits(data: bytes)
    ensures data == [] ==> Sextets(data) == []
    ensures |data| == 1 ==> var n := Number(data[0], 0, 0); Sextets(data) == [n / 0x4_0000, n / 0x1000 % 0x40]
    ensures |data| == 2 ==>
              var n := Number(data[0], data[1], 0);
              Sextets(data) == [n / 0x4_0000, n / 0x1000 % 0x40, n / 0x40 % 0x40]
    ensures |data| >= 3 ==>
              var n := Number(data[0], data[1], data[2]);
              Sextets(data) == [n / 0x4_0000, n / 0x1000 % 0x40, n / 0x40 % 0x40, n % 0x40] + Sextets(data[3..])
  {
    if |data| == 1 {
      Digits64(data[0], 0, 0);
    } else if |data| == 2 {
      Digits64(data[0], data[1], 0);
    } else if data != [] {
      Digits64(data[0], data[1], data[2]);
    }
  }

  /** A token is made of exactly a 32-byte secret and a supported identity: UDF2- and the
      letters of the version 1, the secret, the identity's size, the identity, and the first
      eight bytes of the hash of all that. */
  lemma TokenBytes(hash: bytes -> bytes, der: Der, secret: bytes, identity: Identity)
    requires forall m :: |hash(m)| == HASH_SIZE
    ensures var d := der.marshal(identity);
            var r := EncodeToken(hash, der, secret, identity);
            && (r.Ok? <==> |secret| == 32 && 2048 <= identity.bits <= 4096 && |d| <= 65535)
            && (r.Ok? ==>
                  var body: bytes := [1] + secret + [|d| / 256 % 256, |d| % 256] + d;
                  r.value == "UDF2-" + Encode64(body + hash(body)[..8]))
  {
    var d := der.marshal(identity);
    if |d| <= 65535 {
      assert ToBE(|d|, 2) == [|d| / 256, |d| % 256] by {
        assert ToBE(|d| / 256, 1) == ToBE(|d| / 65536, 0) + [|d| / 256 % 256];
      }
    }
  }
}

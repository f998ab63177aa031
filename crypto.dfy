/**
 * The two cryptographic libraries the controller calls, as ideal values.
 *
 * `bcrypt.hash(password, 12)` / `bcrypt.compare(candidate, hash)`: a digest is a
 * value of its own type, so a stored password can never be a plaintext string.
 * What a digest depends on is bcrypt's key: the UTF-8 bytes of the password with a
 * NUL byte appended, read cyclically for exactly 72 bytes. Two passwords with the
 * same key match each other's hashes; bytes past the 72nd are never read. The random
 * salt bcrypt draws is a parameter.
 *
 * `jwt.sign({email}, secret, {expiresIn: '1h'})` / `jwt.verify(token, secret)`
 * (JSON Web Token, RFC 7519): a token carries its claims (email, issued-at,
 * expiry in seconds) and a MAC over them under the signing key. Verification
 * checks the MAC first and the expiry second, as the jsonwebtoken library does.
 */
module Crypto {
  import opened Wrappers

  /** The cost factor passed to `bcrypt.hash`. */
  const SaltRounds: nat := 12

  newtype byte = x: int | 0 <= x < 256

  /** The UTF-8 encoding of one Unicode scalar value. */
  function EncodeChar(c: char): (r: seq<byte>)
    ensures 1 <= |r| <= 4
    ensures c as int < 0x80 ==> r == [c as int as byte]
    ensures c as int >= 0x80 ==> forall k | 0 <= k < |r| :: r[k] >= 0x80
  {
    var n := c as int;
    if n < 0x80 then [n as byte]
    else if n < 0x800 then [(0xC0 + n / 0x40) as byte, (0x80 + n % 0x40) as byte]
    else if n < 0x1_0000 then [(0xE0 + n / 0x1000) as byte, (0x80 + n / 0x40 % 0x40) as byte, (0x80 + n % 0x40) as byte]
    else [(0xF0 + n / 0x4_0000) as byte, (0x80 + n / 0x1000 % 0x40) as byte, (0x80 + n / 0x40 % 0x40) as byte, (0x80 + n % 0x40) as byte]
  }

  /** The UTF-8 bytes of a string, one character after another. */
  function Utf8(s: string): (r: seq<byte>)
    ensures |s| <= |r| <= 4 * |s|
  {
    if s == [] then [] else EncodeChar(s[0]) + Utf8(s[1..])
  }

  /** How many key bytes bcrypt's key schedule reads (18 words of 4 bytes). */
  const KeyLength: nat := 72

  /** `n` bytes read from `b` round and round, as bcrypt's key schedule reads its key. */
  function Cycle(b: seq<byte>, n: nat): (r: seq<byte>)
    requires |b| > 0
    ensures |r| == n
    ensures n <= |b| ==> r == b[..n]
    ensures n > |b| ==> r[..|b|] == b
    decreases n
  {
    if n <= |b| then b[..n] else b + Cycle(b, n - |b|)
  }

  /** The bytes bcrypt keys its cipher with: the password's UTF-8 bytes and a NUL, repeated to 72 bytes. */
  function Key(password: string): (k: seq<byte>)
    ensures |k| == KeyLength
  {
    Cycle(Utf8(password) + [0], KeyLength)
  }

  datatype Digest = Bcrypt(rounds: nat, salt: string, key: seq<byte>)

  function Hash(password: string, salt: string): (d: Digest)
    ensures d.rounds == SaltRounds
  {
    Bcrypt(SaltRounds, salt, Key(password))
  }

  /** `bcrypt.compare` hashes the candidate with the digest's salt and cost, so only the keys are compared. */
  predicate Compare(candidate: string, d: Digest) {
    Key(candidate) == d.key
  }

  /** A password matches its own hash, whatever the salt, and another password matches exactly when it has the same key. */
  lemma CompareHash(candidate: string, password: string, salt: string)
    ensures Compare(password, Hash(password, salt))
    ensures Compare(candidate, Hash(password, salt)) <==> Key(candidate) == Key(password)
  {
  }

  /** Before the encoding first repeats, the key is the encoding followed by its NUL. */
  lemma KeyPrefix(password: string, i: nat)
    requires i < KeyLength && i <= |Utf8(password)|
    ensures Key(password)[i] == (Utf8(password) + [0])[i]
  {
    var b := Utf8(password) + [0];
    if |b| < KeyLength {
      assert Key(password)[..|b|] == b;
      assert Key(password)[i] == Key(password)[..|b|][i];
    }
  }

  /** A password of 72 UTF-8 bytes or more is keyed by its first 72 bytes alone. */
  lemma KeyOfLong(password: string)
    requires |Utf8(password)| >= KeyLength
    ensures Key(password) == Utf8(password)[..KeyLength]
  {
    forall i | 0 <= i < KeyLength ensures Key(password)[i] == Utf8(password)[i] {
      KeyPrefix(password, i);
    }
  }

  /** Two long passwords that agree on their first 72 UTF-8 bytes match each other's hashes. */
  lemma CompareTruncates(candidate: string, password: string, salt: string)
    requires |Utf8(candidate)| >= KeyLength && |Utf8(password)| >= KeyLength
    requires Utf8(candidate)[..KeyLength] == Utf8(password)[..KeyLength]
    ensures Compare(candidate, Hash(password, salt))
  {
    KeyOfLong(candidate);
    KeyOfLong(password);
  }

  /** A string of ASCII characters is encoded one byte per character. */
  lemma {:induction false} AsciiUtf8(s: string)
    requires forall i | 0 <= i < |s| :: s[i] as int < 0x80
    ensures |Utf8(s)| == |s| && forall i | 0 <= i < |s| :: Utf8(s)[i] == s[i] as int as byte
  {
    if s != [] {
      AsciiUtf8(s[1..]);
    }
  }

  /** Two different passwords of 73 ASCII characters that differ only in the last one match each other's hashes. */
  lemma TruncationCollision(salt: string)
    ensures var password := seq(73, i => if i < 72 then 'a' else 'Y');
            var candidate := seq(73, i => if i < 72 then 'a' else 'X');
            candidate != password && Compare(candidate, Hash(password, salt))
  {
    var password := seq(73, i => if i < 72 then 'a' else 'Y');
    var candidate := seq(73, i => if i < 72 then 'a' else 'X');
    assert candidate[72] != password[72];
    AsciiUtf8(password);
    AsciiUtf8(candidate);
    assert Utf8(candidate)[..KeyLength] == Utf8(password)[..KeyLength];
    CompareTruncates(candidate, password, salt);
  }

  /**
   * Two different encodings shorter than 72 bytes and free of NUL bytes give different
   * keys: the shorter one's NUL terminator, or the first differing byte, shows in the key.
   */
  lemma ShortKeysDiffer(candidate: string, password: string)
    requires |Utf8(candidate)| < KeyLength && |Utf8(password)| < KeyLength
    requires 0 !in Utf8(candidate) && 0 !in Utf8(password)
    requires Utf8(candidate) != Utf8(password)
    ensures Key(candidate) != Key(password)
  {
    var u, v := Utf8(candidate), Utf8(password);
    if |u| == |v| {
      var i :| 0 <= i < |u| && u[i] != v[i];
      KeyPrefix(candidate, i);
      KeyPrefix(password, i);
    } else if |u| < |v| {
      KeyPrefix(candidate, |u|);
      KeyPrefix(password, |u|);
      assert v[|u|] in v;
    } else {
      KeyPrefix(candidate, |v|);
      KeyPrefix(password, |v|);
      assert u[|v|] in u;
    }
  }

  /** `expiresIn: '1h'`, in seconds. */
  const ExpiresIn: int := 3600

  datatype Claims = Claims(email: string, iat: int, exp: int)

  /** The HS256 signature of some claims under some key (an ideal MAC). */
  datatype Mac = HS256(key: string, claims: Claims)

  /** A token as a request carries it: well formed, or any other text. */
  datatype Jwt = Signed(claims: Claims, signature: Mac) | Malformed(text: string)

  datatype JwtError = JsonWebTokenError | TokenExpiredError

  /** `jwt.sign({email}, key, {expiresIn: '1h'})` at clock time `now` (seconds). */
  function Sign(email: string, key: string, now: int): (t: Jwt)
    ensures t.Signed? && t.claims.email == email
    ensures t.claims.iat == now && t.claims.exp == now + ExpiresIn
  {
    var claims := Claims(email, now, now + ExpiresIn);
    Signed(claims, HS256(key, claims))
  }

  /** `jwt.verify(token, key)` at clock time `now`: the email claim, or the error it throws. */
  function Verify(t: Jwt, key: string, now: int): (r: Result<string, JwtError>)
    ensures r.Success? <==> t.Signed? && t.signature == HS256(key, t.claims) && now < t.claims.exp
    ensures r.Success? ==> r.value == t.claims.email
    ensures r == Failure(TokenExpiredError) <==> t.Signed? && t.signature == HS256(key, t.claims) && t.claims.exp <= now
  {
    match t
    case Malformed(_) => Failure(JsonWebTokenError)
    case Signed(claims, signature) =>
      if signature != HS256(key, claims) then Failure(JsonWebTokenError)
      else if claims.exp <= now then Failure(TokenExpiredError)
      else Success(claims.email)
  }

  /** A token decodes to the email it was signed for until one hour after issue, and is expired from then on. */
  lemma VerifySigned(email: string, key: string, issued: int, now: int)
    ensures Verify(Sign(email, key, issued), key, now)
         == if now < issued + ExpiresIn then Success(email) else Failure(TokenExpiredError)
  {
  }

  /** A token signed under another key never verifies, expired or not. */
  lemma VerifyOtherKey(email: string, key: string, other: string, issued: int, now: int)
    requires key != other
    ensures Verify(Sign(email, key, issued), other, now) == Failure(JsonWebTokenError)
  {
  }

  /** Changing the email inside a genuine token without re-signing it is detected. */
  lemma VerifyTampered(t: Jwt, email: string, key: string, now: int)
    requires t.Signed? && t.signature == HS256(key, t.claims) && email != t.claims.email
    ensures Verify(Signed(t.claims.(email := email), t.signature), key, now) == Failure(JsonWebTokenError)
  {
  }
}

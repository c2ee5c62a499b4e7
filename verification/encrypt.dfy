/**
 * Salted password hashing: a salt drawn from the system's entropy source,
 * encoded in standard base64 and cut to `SaltLength` characters, is put in
 * front of the password before bcrypt sees it, both when hashing and when
 * comparing.
 *
 * bcrypt is an oracle (`Bcrypt`): the model never looks inside the hash.
 * The entropy source is an object whose pool of bytes the reads consume.
 */
module Encrypt {
  import opened Wrappers
  import opened Errors
  import opened Base64
  import opened Strings

  /** `bcrypt.MinCost`. */
  const MinCost: int := 4

  /**
   * `bcrypt.GenerateFromPassword(password, cost)` and
   * `bcrypt.CompareHashAndPassword(hash, password)`; failures carry the
   * library's error text.
   */
  datatype Bcrypt = Bcrypt(
    generate: (string, int) -> Result<string, string>,
    compare: (string, string) -> Outcome<string>)

  /** The one property of bcrypt the model relies on: a hash it made matches the password it was made from. */
  ghost predicate AcceptsOwnHash(b: Bcrypt)
  {
    forall password: string, cost: int ::
      b.generate(password, cost).Ok? ==> b.compare(b.generate(password, cost).value, password) == Pass
  }

  /**
   * bcrypt's key schedule reads at most 72 bytes of key: the input followed
   * by a NUL byte, repeated when shorter.
   */
  const KeyBytes: nat := 72

  /**
   * The input is read whole: it fits in the key together with its closing
   * NUL, and holds no NUL of its own that could make two repeated keys
   * coincide.
   */
  predicate WithinKey(x: string)
  {
    Utf8Len(x) < KeyBytes && '\0' !in x
  }

  /**
   * Collision freedom, as far as the model needs it and bcrypt can give it:
   * a hash bcrypt made matches no other input, among the inputs it reads whole.
   */
  ghost predicate RejectsOtherPasswords(b: Bcrypt)
  {
    forall password: string, cost: int, other: string ::
      WithinKey(password) && WithinKey(other) && b.generate(password, cost).Ok? && other != password
      ==> b.compare(b.generate(password, cost).value, other).Fail?
  }

  /**
   * Truncation: bcrypt decides on the first 72 bytes of the input. Two inputs
   * of at least 72 runes that agree on their first 72 runes agree on at
   * least their first 72 bytes, and get the same verdict.
   */
  ghost predicate ReadsKeyPrefix(b: Bcrypt)
  {
    forall hash: string, x: string, y: string ::
      |x| >= KeyBytes && |y| >= KeyBytes && x[..KeyBytes] == y[..KeyBytes] ==> b.compare(hash, x) == b.compare(hash, y)
  }

  /**
   * `crypto/rand`: the bytes it will hand out, in order, and whether the
   * source is failing.
   */
  class Entropy {
    var pool: seq<byte>
    var broken: bool

    constructor (pool: seq<byte>, broken: bool)
      ensures this.pool == pool && this.broken == broken
    {
      this.pool := pool;
      this.broken := broken;
    }

    /**
     * `rand.Read(buf)`: fills the whole buffer or reports an error; a short
     * pool is a failure like a broken source.
     */
    method Read(buf: array<byte>) returns (r: Outcome<string>)
      modifies this, buf
      ensures broken == old(broken)
      ensures old(broken) || buf.Length > |old(pool)| ==>
        r.Fail? && pool == old(pool) && buf[..] == old(buf[..])
      ensures !old(broken) && buf.Length <= |old(pool)| ==>
        r == Pass && buf[..] == old(pool)[..buf.Length] && pool == old(pool)[buf.Length..]
    {
      if broken || buf.Length > |pool| {
        return Fail("entropy source unavailable");
      }
      forall i | 0 <= i < buf.Length {
        buf[i] := pool[i];
      }
      pool := pool[buf.Length..];
      return Pass;
    }
  }

  /** The service's configuration: the salt length, and the bcrypt it calls. */
  datatype EncryptService = EncryptService(saltLength: nat, bcrypt: Bcrypt)

  /**
   * The salt made from the drawn bytes: their base64 encoding cut to as many
   * characters as there are bytes. Base64 of n bytes is at least n
   * characters long, so the cut is in bounds, and it always falls before the
   * padding.
   */
  function Salt(bytes: seq<byte>): (s: string)
    ensures |s| == |bytes|
    ensures forall k :: 0 <= k < |s| ==> IsSymbol(s[k])
    ensures Pad !in s
  {
    var s := Encode(bytes)[..|bytes|];
    EncodeAlphabet(bytes);
    assert forall k :: 0 <= k < |s| ==> s[k] != Pad by {
      assert !IsSymbol(Pad);
    }
    s
  }

  /** `saltGeneration`: draws `SaltLength` bytes into a fresh buffer and encodes them. */
  method SaltGeneration(e: EncryptService, entropy: Entropy) returns (r: Result<string, Error>)
    modifies entropy
    ensures entropy.broken == old(entropy.broken)
    ensures old(entropy.broken) || e.saltLength > |old(entropy.pool)| ==>
      r.Err? && r.error.GeneratingSaltFrom? && entropy.pool == old(entropy.pool)
    ensures !old(entropy.broken) && e.saltLength <= |old(entropy.pool)| ==>
      r == Ok(Salt(old(entropy.pool)[..e.saltLength])) && entropy.pool == old(entropy.pool)[e.saltLength..]
  {
    var bytes := new byte[e.saltLength];
    var err := entropy.Read(bytes);
    if err.Fail? {
      return Err(GeneratingSaltFrom(err.error));
    }
    var encoded := Encode(bytes[..]);
    return Ok(encoded[..e.saltLength]);
  }

  /**
   * What `HashPassword` returns once the salt is known: the bcrypt hash of
   * `salt + password` at `MinCost`, with the salt, or the hashing error
   * joined to `ErrHashingPassword`.
   */
  function HashWithSalt(e: EncryptService, salt: string, password: string): (r: Result<(string, string), Error>)
    ensures r.Ok? <==> e.bcrypt.generate(salt + password, MinCost).Ok?
    ensures r.Ok? ==> r.value == (e.bcrypt.generate(salt + password, MinCost).value, salt)
    ensures r.Err? ==> r.error == HashingPassword(e.bcrypt.generate(salt + password, MinCost).error)
  {
    match e.bcrypt.generate(salt + password, MinCost)
    case Ok(hash) => Ok((hash, salt))
    case Err(cause) => Err(HashingPassword(cause))
  }

  /**
   * `HashPassword`: a salt failure is reported as plain `ErrGeneratingSalt`
   * and bcrypt is not consulted; otherwise the result is `HashWithSalt` for
   * the drawn salt.
   */
  method HashPassword(e: EncryptService, entropy: Entropy, password: string) returns (r: Result<(string, string), Error>)
    modifies entropy
    ensures entropy.broken == old(entropy.broken)
    ensures old(entropy.broken) || e.saltLength > |old(entropy.pool)| ==>
      r == Err(GeneratingSalt) && entropy.pool == old(entropy.pool)
    ensures !old(entropy.broken) && e.saltLength <= |old(entropy.pool)| ==>
      r == HashWithSalt(e, Salt(old(entropy.pool)[..e.saltLength]), password)
      && entropy.pool == old(entropy.pool)[e.saltLength..]
  {
    var salt := SaltGeneration(e, entropy);
    if salt.Err? {
      return Err(GeneratingSalt);
    }
    return HashWithSalt(e, salt.value, password);
  }

  /**
   * `PasswordComparison`: bcrypt's verdict on `salt + password`; any
   * mismatch or malformed hash is joined to `ErrInvalidPassword`.
   */
  function PasswordComparison(e: EncryptService, hashedPassword: string, password: string, salt: string): (r: Outcome<Error>)
    ensures r == Pass <==> e.bcrypt.compare(hashedPassword, salt + password) == Pass
    ensures r.Fail? ==> r.error == InvalidPassword(e.bcrypt.compare(hashedPassword, salt + password).error)
  {
    match e.bcrypt.compare(hashedPassword, salt + password)
    case Pass => Pass
    case Fail(cause) => Fail(InvalidPassword(cause))
  }

  /**
   * Hash then verify: whatever salt was drawn, the hash and salt that
   * hashing returns make the comparison succeed for the same password.
   */
  lemma HashThenCompare(e: EncryptService, salt: string, password: string)
    requires AcceptsOwnHash(e.bcrypt)
    requires HashWithSalt(e, salt, password).Ok?
    ensures HashWithSalt(e, salt, password).value.1 == salt
    ensures PasswordComparison(e, HashWithSalt(e, salt, password).value.0, password, salt) == Pass
  {
    var g := e.bcrypt.generate(salt + password, MinCost);
    assert g.Ok?;
  }

  /**
   * Hash then verify another password: under the same salt, a different
   * password fails the comparison with `ErrInvalidPassword`, provided bcrypt
   * matches a hash to no other input than its own, and both salted inputs
   * are short enough for bcrypt to read them whole.
   */
  lemma HashRejectsOtherPassword(e: EncryptService, salt: string, password: string, other: string)
    requires RejectsOtherPasswords(e.bcrypt)
    requires HashWithSalt(e, salt, password).Ok?
    requires WithinKey(salt + password) && WithinKey(salt + other)
    requires other != password
    ensures PasswordComparison(e, HashWithSalt(e, salt, password).value.0, other, salt).Fail?
    ensures PasswordComparison(e, HashWithSalt(e, salt, password).value.0, other, salt).error.InvalidPassword?
  {
    assert (salt + other)[|salt|..] == other && (salt + password)[|salt|..] == password;
    var g := e.bcrypt.generate(salt + password, MinCost);
    assert g.Ok?;
  }

  /**
   * Past the key length, other passwords pass: when the salted password
   * fills bcrypt's 72-byte key, any password whose salted form agrees with
   * it on the first 72 runes passes the comparison with its hash.
   */
  lemma SharedKeyPrefixAccepted(e: EncryptService, salt: string, password: string, other: string)
    requires AcceptsOwnHash(e.bcrypt) && ReadsKeyPrefix(e.bcrypt)
    requires HashWithSalt(e, salt, password).Ok?
    requires |salt + password| >= KeyBytes && |salt + other| >= KeyBytes
    requires (salt + password)[..KeyBytes] == (salt + other)[..KeyBytes]
    ensures PasswordComparison(e, HashWithSalt(e, salt, password).value.0, other, salt) == Pass
  {
    HashThenCompare(e, salt, password);
    var hash := HashWithSalt(e, salt, password).value.0;
    assert e.bcrypt.compare(hash, salt + password) == e.bcrypt.compare(hash, salt + other);
  }

  /** In particular, a salted password of 72 runes or more still passes with any character appended. */
  lemma ExtendedPasswordAccepted(e: EncryptService, salt: string, password: string, c: char)
    requires AcceptsOwnHash(e.bcrypt) && ReadsKeyPrefix(e.bcrypt)
    requires HashWithSalt(e, salt, password).Ok?
    requires |salt + password| >= KeyBytes
    ensures password + [c] != password
    ensures PasswordComparison(e, HashWithSalt(e, salt, password).value.0, password + [c], salt) == Pass
  {
    assert |password + [c]| != |password|;
    assert (salt + password)[..KeyBytes] == (salt + (password + [c]))[..KeyBytes] by {
      assert salt + (password + [c]) == (salt + password) + [c];
    }
    SharedKeyPrefixAccepted(e, salt, password, password + [c]);
  }
}

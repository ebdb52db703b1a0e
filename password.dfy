/** The bcrypt-backed password hasher (internal/pkg/auth/password.go).

    bcrypt itself is a foreign primitive. It is modelled here by an ideal
    digest: the modular-crypt header "$2a$" + two-digit cost + "$", then the
    22-character salt, then a part that binds the whole password. This keeps
    the properties the hasher's callers rely on (a digest verifies its own
    password and no other, different salts give different digests, a digest
    is never the plaintext) without modelling Blowfish. The random salt is a
    parameter. */
module Password {

  import opened Wrappers
  import opened Text

  const MinCost: int := 4
  const MaxCost: int := 31
  const DefaultCost: int := 10
  /** bcrypt refuses to hash passwords longer than this many bytes. */
  const MaxPasswordBytes: int := 72

  const DigestPrefix: string := "$2a$"
  /** Length of "$2a$" + "NN" + "$" + salt. */
  const HeaderLength: int := 29

  /** A salt as bcrypt writes it: 22 characters of its base-64 alphabet. */
  type Salt = s: string | |s| == 22 witness "......................"

  datatype HashError = ErrPasswordTooLong | InvalidCostError(cost: int) {
    /** The primitive's error texts. */
    function Text(): string {
      match this
      case ErrPasswordTooLong => "bcrypt: password length exceeds 72 bytes"
      case InvalidCostError(c) =>
        "crypto/bcrypt: cost " + IntString(c) + " is outside allowed inclusive range 4..31"
    }
  }

  datatype CompareError = ErrMalformedHash | ErrMismatchedHashAndPassword

  /** The configured hasher; only its cost is stored. */
  datatype PasswordHasher = PasswordHasher(cost: int)

  /** Output of Hash: Go's `(string, error)` pair. */
  datatype HashOutput = HashOutput(digest: string, err: Option<HashError>)

  /** NewPasswordHasher: a cost outside [MinCost, MaxCost] becomes DefaultCost. */
  function NewPasswordHasher(cost: int): (h: PasswordHasher)
    ensures MinCost <= h.cost <= MaxCost
    ensures MinCost <= cost <= MaxCost ==> h.cost == cost
    ensures !(MinCost <= cost <= MaxCost) ==> h.cost == DefaultCost
  {
    if cost < MinCost || cost > MaxCost then PasswordHasher(DefaultCost) else PasswordHasher(cost)
  }

  /** "%02d" for a cost. */
  function CostText(cost: int): (t: string)
    requires 0 <= cost < 100
    ensures |t| == 2 && AllDigits(t)
  {
    [DigitChar(cost / 10), DigitChar(cost % 10)]
  }

  function Digest(cost: int, salt: Salt, password: string): (d: string)
    requires 0 <= cost < 100
    ensures |d| == HeaderLength + |password|
  {
    DigestPrefix + CostText(cost) + "$" + salt + password
  }

  /** The cost bcrypt.GenerateFromPassword uses: one below MinCost means DefaultCost. */
  function EffectiveCost(cost: int): int {
    if cost < MinCost then DefaultCost else cost
  }

  /** Hash: the digest, or "" together with the primitive's error. The
      primitive fails for passwords over 72 bytes and for a cost above MaxCost. */
  function Hash(h: PasswordHasher, password: string, salt: Salt): (r: HashOutput)
    ensures r.err.Some? ==> r.digest == ""
    ensures r.err.None? ==> r.digest != password && HasPrefix(r.digest, DigestPrefix)
    ensures r.err == Some(ErrPasswordTooLong) <==> Utf8Length(password) > MaxPasswordBytes
  {
    if Utf8Length(password) > MaxPasswordBytes then HashOutput("", Some(ErrPasswordTooLong))
    else
      var cost := EffectiveCost(h.cost);
      if cost > MaxCost then HashOutput("", Some(InvalidCostError(cost)))
      else HashOutput(Digest(cost, salt, password), None)
  }

  /** The header a digest must carry: "$2a$", a two-digit cost in range, "$", and a salt. */
  predicate WellFormed(d: string) {
    && |d| >= HeaderLength
    && d[..4] == DigestPrefix
    && AllDigits(d[4..6])
    && MinCost <= DigitsValue(d[4..6]) <= MaxCost
    && d[6] == '$'
  }

  /** Compare: Pass when the digest is well formed and was made from this password. */
  function Compare(h: PasswordHasher, hashedPassword: string, password: string): (r: Outcome<CompareError>)
    ensures r == Pass ==> WellFormed(hashedPassword)
  {
    if !WellFormed(hashedPassword) then Fail(ErrMalformedHash)
    else if hashedPassword[HeaderLength..] == password then Pass
    else Fail(ErrMismatchedHashAndPassword)
  }

  lemma DigestParts(cost: int, salt: Salt, password: string)
    requires MinCost <= cost <= MaxCost
    ensures var d := Digest(cost, salt, password);
            && d[..4] == DigestPrefix && d[4..6] == CostText(cost) && d[6] == '$'
            && d[7..HeaderLength] == salt && d[HeaderLength..] == password
  {
    var d := Digest(cost, salt, password);
    assert d == DigestPrefix + CostText(cost) + "$" + salt + password;
  }

  lemma CostTextValue(cost: int)
    requires 0 <= cost < 100
    ensures DigitsValue(CostText(cost)) == cost
  {
    var t := CostText(cost);
    assert t[..1] == [t[0]];
    assert DigitsValue([t[0]][..0]) == 0;
  }

  /** A digest from Hash verifies its own password and no other, the empty one included,
      whatever hasher does the comparing. */
  lemma HashThenCompare(h: PasswordHasher, password: string, salt: Salt, other: string, g: PasswordHasher)
    requires Hash(h, password, salt).err.None?
    ensures Compare(g, Hash(h, password, salt).digest, password) == Pass
    ensures other != password ==> Compare(g, Hash(h, password, salt).digest, other) == Fail(ErrMismatchedHashAndPassword)
  {
    var cost := EffectiveCost(h.cost);
    DigestParts(cost, salt, password);
    CostTextValue(cost);
  }

  /** Two hashes of one password under two salts differ (the salt is the per-call randomness). */
  lemma DifferentSaltsGiveDifferentDigests(h: PasswordHasher, password: string, salt1: Salt, salt2: Salt)
    requires salt1 != salt2
    requires Hash(h, password, salt1).err.None?
    ensures Hash(h, password, salt2).err.None?
    ensures Hash(h, password, salt1).digest != Hash(h, password, salt2).digest
  {
    var cost := EffectiveCost(h.cost);
    DigestParts(cost, salt1, password);
    DigestParts(cost, salt2, password);
  }

  /** With a hasher built by NewPasswordHasher, hashing fails exactly for passwords over 72 bytes. */
  lemma HashFailsOnlyWhenTooLong(cost: int, password: string, salt: Salt)
    ensures Hash(NewPasswordHasher(cost), password, salt).err.Some?
            <==> Utf8Length(password) > MaxPasswordBytes
  {
  }

  /** A 101-byte password fails to hash with an empty digest. */
  lemma LongPasswordIsRejected(salt: Salt)
    ensures var p := seq(101, _ => 'a');
            Hash(NewPasswordHasher(MinCost), p, salt) == HashOutput("", Some(ErrPasswordTooLong))
  {
    var p := seq(101, _ => 'a');
    Utf8LengthOfAscii(p);
  }

  /** A string that is not a bcrypt digest is reported as malformed, and only such a
      string is; the example input "not-a-valid-hash" of password_test.go is one. */
  lemma NonDigestNeverVerifies(h: PasswordHasher, d: string, password: string)
    ensures !WellFormed(d) <==> Compare(h, d, password) == Fail(ErrMalformedHash)
    ensures Compare(h, "not-a-valid-hash", password) == Fail(ErrMalformedHash)
  {
    assert "not-a-valid-hash"[..4] != DigestPrefix by {
      assert "not-a-valid-hash"[0] != DigestPrefix[0];
    }
  }
}

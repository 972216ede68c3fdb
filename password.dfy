/** Password rules of src/lib/password.ts: bcrypt hashing and verification
    (through the `Crypto` oracles), detection of legacy SHA-256 hashes,
    migrate-on-verify, and the strength rules. */
module Password {
  import opened Common
  import opened Crypto

  const SALT_ROUNDS: nat := 12

  /** `hashPassword`: bcrypt with SALT_ROUNDS rounds. */
  function HashPassword(c: Crypto, password: string): string {
    c.hash(password)
  }

  /** `verifyPassword`: bcrypt comparison. */
  function VerifyPassword(c: Crypto, password: string, hash: string): bool {
    c.compare(password, hash)
  }

  lemma HashThenVerify(c: Crypto, password: string)
    requires Sound(c)
    ensures VerifyPassword(c, password, HashPassword(c, password))
  {
  }

  // ---------------------------------------------------------------------
  // isLegacySha256Hash: the regular expression /^[a-f0-9]{64}$/

  /** Matching `[a-f0-9]{n}$` at the start of `s`. */
  predicate MatchesHexRun(s: string, n: nat) {
    if n == 0 then s == []
    else s != [] && IsLowerHexChar(s[0]) && MatchesHexRun(s[1..], n - 1)
  }

  predicate IsLegacySha256Hash(hash: string) {
    MatchesHexRun(hash, 64)
  }

  lemma {:induction false} MatchesHexRunExactly(s: string, n: nat)
    ensures MatchesHexRun(s, n) <==> |s| == n && IsLowerHex(s)
  {
    if n > 0 && s != [] {
      MatchesHexRunExactly(s[1..], n - 1);
      assert IsLowerHex(s) <==> IsLowerHexChar(s[0]) && IsLowerHex(s[1..]) by {
        if IsLowerHexChar(s[0]) && IsLowerHex(s[1..]) {
          forall i | 0 <= i < |s| ensures IsLowerHexChar(s[i]) {
            if i > 0 { assert s[i] == s[1..][i - 1]; }
          }
        }
      }
    }
  }

  /** A legacy hash is exactly 64 lower-case hex characters. */
  lemma LegacyHashFormat(hash: string)
    ensures IsLegacySha256Hash(hash) <==> |hash| == 64 && IsLowerHex(hash)
  {
    MatchesHexRunExactly(hash, 64);
  }

  /** Any string holding a character outside [0-9a-f], such as an upper-case
      hex digit or bcrypt's `$`, is not a legacy hash. */
  lemma NonHexIsNotLegacy(hash: string, i: nat)
    requires i < |hash| && !IsLowerHexChar(hash[i])
    ensures !IsLegacySha256Hash(hash)
  {
    LegacyHashFormat(hash);
  }

  /** bcrypt output is never mistaken for a legacy hash. */
  lemma BcryptIsNotLegacy(c: Crypto, password: string)
    requires Sound(c)
    ensures !IsLegacySha256Hash(HashPassword(c, password))
  {
    var h := HashPassword(c, password);
    assert '$' in h;
    var i :| 0 <= i < |h| && h[i] == '$';
    NonHexIsNotLegacy(h, i);
  }

  /** A SHA-256 hex digest is recognised as a legacy hash. */
  lemma Sha256IsLegacy(c: Crypto, password: string)
    requires Sound(c)
    ensures IsLegacySha256Hash(c.sha256Hex(password))
  {
    LegacyHashFormat(c.sha256Hex(password));
  }

  // ---------------------------------------------------------------------
  // migrateLegacyHash

  /** Recompute the SHA-256 digest of the supplied password; on a match, the
      new bcrypt hash to store, otherwise None. */
  function MigrateLegacyHash(c: Crypto, password: string, legacyHash: string): (r: Option<string>)
    ensures r.Some? <==> c.sha256Hex(password) == legacyHash
  {
    var sha256Hash := c.sha256Hex(password);
    if sha256Hash == legacyHash then Some(HashPassword(c, password)) else None
  }

  /** After a successful migration the stored value is a bcrypt hash of the
      password: it verifies, and it is no longer legacy-formatted, so the next
      login takes the bcrypt path. */
  lemma MigratedHashVerifies(c: Crypto, password: string, legacyHash: string)
    requires Sound(c)
    requires MigrateLegacyHash(c, password, legacyHash).Some?
    ensures var h := MigrateLegacyHash(c, password, legacyHash).value;
      h == HashPassword(c, password) && VerifyPassword(c, password, h) && !IsLegacySha256Hash(h)
  {
    BcryptIsNotLegacy(c, password);
  }

  // ---------------------------------------------------------------------
  // validatePasswordStrength

  /** A regular expression `/[lo-hi]/.test(s)`: some character in the range. */
  predicate ContainsInRange(s: string, lo: char, hi: char)
    decreases |s|
  {
    s != [] && (lo <= s[0] <= hi || ContainsInRange(s[1..], lo, hi))
  }

  lemma {:induction false} ContainsInRangeMeans(s: string, lo: char, hi: char)
    ensures ContainsInRange(s, lo, hi) <==> exists i :: 0 <= i < |s| && lo <= s[i] <= hi
  {
    if s != [] {
      ContainsInRangeMeans(s[1..], lo, hi);
      if exists i :: 0 <= i < |s| && lo <= s[i] <= hi {
        var i :| 0 <= i < |s| && lo <= s[i] <= hi;
        if i > 0 { assert s[1..][i - 1] == s[i]; }
      }
      if exists j :: 0 <= j < |s[1..]| && lo <= s[1..][j] <= hi {
        var j :| 0 <= j < |s[1..]| && lo <= s[1..][j] <= hi;
        assert s[j + 1] == s[1..][j];
      }
    }
  }

  predicate HasUpper(s: string) { ContainsInRange(s, 'A', 'Z') }
  predicate HasLower(s: string) { ContainsInRange(s, 'a', 'z') }
  predicate HasDigit(s: string) { ContainsInRange(s, '0', '9') }

  /** The four error messages, one per rule. */
  datatype PwError = TooShort | NoUppercase | NoLowercase | NoDigit

  datatype PasswordValidation = Valid | Invalid(error: PwError)

  const MIN_PASSWORD_LENGTH: nat := 8

  /** The rules in order: length, upper case, lower case, digit; the first
      failing rule is reported. */
  function ValidatePasswordStrength(password: string): (r: PasswordValidation)
    ensures r.Valid? <==> |password| >= 8 && HasUpper(password) && HasLower(password) && HasDigit(password)
    ensures r == Invalid(TooShort) <==> |password| < 8
    ensures r == Invalid(NoUppercase) <==> |password| >= 8 && !HasUpper(password)
    ensures r == Invalid(NoLowercase) <==> |password| >= 8 && HasUpper(password) && !HasLower(password)
    ensures r == Invalid(NoDigit) <==>
      |password| >= 8 && HasUpper(password) && HasLower(password) && !HasDigit(password)
  {
    if |password| < MIN_PASSWORD_LENGTH then Invalid(TooShort)
    else if !HasUpper(password) then Invalid(NoUppercase)
    else if !HasLower(password) then Invalid(NoLowercase)
    else if !HasDigit(password) then Invalid(NoDigit)
    else Valid
  }

  /** A strong password has, at some positions, an ASCII capital, a small
      letter and a digit. */
  lemma StrongPasswordWitnesses(password: string)
    requires ValidatePasswordStrength(password).Valid?
    ensures |password| >= 8
    ensures exists i :: 0 <= i < |password| && 'A' <= password[i] <= 'Z'
    ensures exists i :: 0 <= i < |password| && 'a' <= password[i] <= 'z'
    ensures exists i :: 0 <= i < |password| && '0' <= password[i] <= '9'
  {
    ContainsInRangeMeans(password, 'A', 'Z');
    ContainsInRangeMeans(password, 'a', 'z');
    ContainsInRangeMeans(password, '0', '9');
  }
}

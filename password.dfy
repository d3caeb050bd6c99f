/**
  The credential codec and check. A credential is the string
  `argon2id$v=<version>$t=<time>$m=<memory>$p=<threads>$<salt>$<hash>`, with salt and
  hash in unpadded standard base64. It is made from the password followed by the
  pepper, and checked by re-deriving the key with the parameters written inside it.
 */
module Password {
  import opened Wrappers
  import opened Errors
  import opened Numbers
  import opened Strings
  import opened Base64
  import opened AuthConfig

  /** `argon2.Version`, 0x13, the version number of section 3.1 of RFC 9106. */
  const Version: nat := 0x13

  const InvalidFormat := Message("invalid password hash format")
  const PepperMissing := Message("password pepper is not configured")

  /** The cost parameters of one derivation. */
  datatype Params = Params(time: uint32, memory: uint32, threads: uint8)

  /** The parameters every new credential is made with. */
  const CostParams := Params(TimeCost, MemoryKB, Threads)

  /**
    Argon2id (`argon2.IDKey`) seen from outside: some deterministic function of the
    secret, the salt, the parameters and the key length that returns exactly as many
    bytes as asked for. Nothing else about it is assumed.
   */
  type KeyDerivation = f: (string, seq<byte>, Params, nat) -> seq<byte>
    | forall secret, salt, params, n :: |f(secret, salt, params, n)| == n
    witness (secret: string, salt: seq<byte>, params: Params, n: nat) => seq(n, _ => 0 as byte)

  /** The parameters the library accepts: it panics on a zero time cost, a zero
      parallelism or a zero key length. */
  predicate Derivable(params: Params, keyLen: nat) {
    params.time >= 1 && params.threads >= 1 && keyLen >= 1
  }

  type Salt = s: seq<byte> | |s| == SaltLen witness seq(SaltLen, _ => 0 as byte)

  /** What `rand.Read` did with the salt buffer: filled it, or reported an error. */
  datatype RandomRead = Read(salt: Salt) | ReadFailed

  /** The `fmt.Sprintf` that writes a credential: seven fields with a `$` between each two. */
  function FormatHash(version: nat, params: Params, salt: seq<byte>, hash: seq<byte>): (s: string)
    ensures s == Join(HashFields(version, params, salt, hash), '$')
  {
    JoinSeven(HashFields(version, params, salt, hash), '$');
    "argon2id" + "$" + ("v=" + Decimal(version)) + "$" + ("t=" + Decimal(params.time as nat))
    + "$" + ("m=" + Decimal(params.memory as nat)) + "$" + ("p=" + Decimal(params.threads as nat))
    + "$" + Encode(salt) + "$" + Encode(hash)
  }

  /** The seven `$`-separated fields of a credential written by `FormatHash`. */
  function HashFields(version: nat, params: Params, salt: seq<byte>, hash: seq<byte>): seq<string> {
    ["argon2id", "v=" + Decimal(version), "t=" + Decimal(params.time as nat),
     "m=" + Decimal(params.memory as nat), "p=" + Decimal(params.threads as nat),
     Encode(salt), Encode(hash)]
  }

  /** Splitting a written credential on `$` gives exactly its seven fields: no digit and
      no base64 character is a `$`. */
  lemma SplitFormatHash(version: nat, params: Params, salt: seq<byte>, hash: seq<byte>)
    ensures Split(FormatHash(version, params, salt, hash), '$') == HashFields(version, params, salt, hash)
  {
    var f := HashFields(version, params, salt, hash);
    NumberFieldHasNoSeparator("v=", version);
    NumberFieldHasNoSeparator("t=", params.time as nat);
    NumberFieldHasNoSeparator("m=", params.memory as nat);
    NumberFieldHasNoSeparator("p=", params.threads as nat);
    assert '$' !in f[5] by {
      assert forall j :: 0 <= j < |f[5]| ==> IsAlphabet(f[5][j]);
    }
    assert '$' !in f[6] by {
      assert forall j :: 0 <= j < |f[6]| ==> IsAlphabet(f[6][j]);
    }
    SplitJoin(f, '$');
  }

  lemma NumberFieldHasNoSeparator(prefix: string, n: nat)
    requires |prefix| == 2 && prefix[0] != '$' && prefix[1] != '$'
    ensures '$' !in prefix + Decimal(n)
  {
    var d := Decimal(n);
    assert forall j :: 0 <= j < |d| ==> IsDigit(d[j]);
    assert forall j :: 0 <= j < |prefix + d| ==> (prefix + d)[j] != '$' by {
      forall j | 0 <= j < |prefix + d| ensures (prefix + d)[j] != '$' {
        if j >= 2 { assert (prefix + d)[j] == d[j - 2]; }
      }
    }
  }

  /** A join of seven pieces written out. */
  lemma JoinSeven(f: seq<string>, sep: char)
    requires |f| == 7
    ensures Join(f, sep) == f[0] + [sep] + f[1] + [sep] + f[2] + [sep] + f[3] + [sep] + f[4] + [sep] + f[5] + [sep] + f[6]
  {
    assert Join(f[6..], sep) == f[6];
    assert Join(f[5..], sep) == f[5] + [sep] + f[6];
    assert Join(f[4..], sep) == f[4] + [sep] + Join(f[5..], sep);
    assert Join(f[3..], sep) == f[3] + [sep] + Join(f[4..], sep);
    assert Join(f[2..], sep) == f[2] + [sep] + Join(f[3..], sep);
    assert Join(f[1..], sep) == f[1] + [sep] + Join(f[2..], sep);
  }

  /**
    `HashPassword`: read a random salt, refuse an empty pepper, derive a `KeyLen`-byte
    key from password + pepper with the fixed costs, and write the credential. On an
    error the string is empty; the randomness failure is reported before the pepper.
   */
  function HashPassword(inputPassword: string, pepper: string, random: RandomRead, kdf: KeyDerivation): (r: (string, Outcome))
    ensures r.1 != Pass ==> r.0 == ""
    ensures r.1 == Pass <==> random.Read? && pepper != ""
    ensures random.ReadFailed? ==> r.1 == Fail(RandomUnavailable)
    ensures random.Read? && pepper == "" ==> r.1 == Fail(PepperMissing)
  {
    if random.ReadFailed? then ("", Fail(RandomUnavailable))
    else if pepper == "" then ("", Fail(PepperMissing))
    else
      var hash := kdf(inputPassword + pepper, random.salt, CostParams, KeyLen as nat);
      (FormatHash(Version, CostParams, random.salt, hash), Pass)
  }

  /** What a credential holds once it has been read. */
  datatype Decoded = Decoded(params: Params, salt: seq<byte>, hash: seq<byte>)

  /**
    The reading half of `VerifyPassword`: split on `$`, demand seven fields, scan
    `t=`, `m=` and `p=` (into a uint32, a uint32 and a uint8) and decode the salt and
    then the hash. The first failing step gives the error. Fields 0 and 1 are never
    looked at.
   */
  function ParseHash(hashed: string): (r: Result<Decoded, Error>)
    ensures |Split(hashed, '$')| != 7 ==> r == Failure(InvalidFormat)
    ensures r.Success? ==> |Split(hashed, '$')| == 7
    ensures var parts := Split(hashed, '$');
            |parts| == 7 ==>
              var t, m, p := ScanUnsigned(parts[2], "t=", 0x1_0000_0000), ScanUnsigned(parts[3], "m=", 0x1_0000_0000),
                             ScanUnsigned(parts[4], "p=", 0x100);
              (t.None? || m.None? || p.None? ==> r == Failure(ScanFailure))
              && (t.Some? && m.Some? && p.Some? && Decode(parts[5]).Failure? ==> r == Failure(CorruptBase64))
              && (t.Some? && m.Some? && p.Some? && Decode(parts[5]).Success? && Decode(parts[6]).Failure? ==>
                    r == Failure(CorruptBase64))
              && (r.Success? <==> t.Some? && m.Some? && p.Some? && Decode(parts[5]).Success? && Decode(parts[6]).Success?)
              && (r.Success? ==>
                    r.value == Decoded(Params(t.value as uint32, m.value as uint32, p.value as uint8),
                                       Decode(parts[5]).value, Decode(parts[6]).value))
  {
    var parts := Split(hashed, '$');
    if |parts| != 7 then Failure(InvalidFormat)
    else
      var t, m, p := ScanUnsigned(parts[2], "t=", 0x1_0000_0000), ScanUnsigned(parts[3], "m=", 0x1_0000_0000),
                             ScanUnsigned(parts[4], "p=", 0x100);
      if t.None? || m.None? || p.None? then Failure(ScanFailure)
      else
        match (Decode(parts[5]), Decode(parts[6]))
        case (Failure(e), _) => Failure(e)
        case (_, Failure(e)) => Failure(e)
        case (Success(salt), Success(hash)) =>
          Success(Decoded(Params(t.value as uint32, m.value as uint32, p.value as uint8), salt, hash))
  }

  /** Reading a written credential gives back every parameter, the salt and the hash,
      whatever the version. */
  lemma ParseFormatHash(version: nat, params: Params, salt: seq<byte>, hash: seq<byte>)
    ensures ParseHash(FormatHash(version, params, salt, hash)) == Success(Decoded(params, salt, hash))
  {
    SplitFormatHash(version, params, salt, hash);
    ParseFields(FormatHash(version, params, salt, hash), version, params, salt, hash);
  }

  /** Any string whose `$`-pieces are the seven fields reads back as those values. */
  lemma ParseFields(hashed: string, version: nat, params: Params, salt: seq<byte>, hash: seq<byte>)
    requires Split(hashed, '$') == HashFields(version, params, salt, hash)
    ensures ParseHash(hashed) == Success(Decoded(params, salt, hash))
  {
    ScanField("t=", params.time as nat, 0x1_0000_0000);
    ScanField("m=", params.memory as nat, 0x1_0000_0000);
    ScanField("p=", params.threads as nat, 0x100);
    DecodeEncode(salt);
    DecodeEncode(hash);
  }

  lemma ScanField(prefix: string, n: nat, bound: nat)
    requires n < bound
    ensures ScanUnsigned(prefix + Decimal(n), prefix, bound) == Some(n)
  {
    ScanDecimal(prefix, n, "", bound);
    assert prefix + Decimal(n) + "" == prefix + Decimal(n);
  }

  /**
    The outcome of `VerifyPassword`: a credential that cannot be read gives its error;
    otherwise the key is derived again from password + pepper with the parameters and
    salt read from the credential and the length of the stored hash, and the answer is
    whether it equals the stored hash. The answer is never `true` together with an
    error.
   */
  function Verify(userPassword: string, pepper: string, hashedPassword: string, kdf: KeyDerivation): (r: (bool, Outcome))
    ensures r.0 ==> r.1 == Pass
    ensures ParseHash(hashedPassword).Failure? ==> r == (false, Fail(ParseHash(hashedPassword).error))
  {
    match ParseHash(hashedPassword)
    case Failure(e) => (false, Fail(e))
    case Success(d) =>
      if !Derivable(d.params, |d.hash|) then (false, Fail(DerivationAbort))
      else (kdf(userPassword + pepper, d.salt, d.params, |d.hash|) == d.hash, Pass)
  }

  /**
    On a credential written by `FormatHash`, verification succeeds exactly when the key
    derived with the written parameters equals the written hash, and a mismatch is a
    plain `false`, not an error. Parameters the library refuses give its error.
   */
  lemma VerifyFormatted(userPassword: string, pepper: string, version: nat, params: Params,
                        salt: seq<byte>, hash: seq<byte>, kdf: KeyDerivation)
    ensures Verify(userPassword, pepper, FormatHash(version, params, salt, hash), kdf)
         == if !Derivable(params, |hash|) then (false, Fail(DerivationAbort))
            else (kdf(userPassword + pepper, salt, params, |hash|) == hash, Pass)
  {
    ParseFormatHash(version, params, salt, hash);
  }

  /**
    A credential made with any parameters the library accepts verifies with the same
    password and pepper: the check uses the parameters stored in the credential, not
    the current cost settings.
   */
  lemma VerifyUnderStoredParameters(userPassword: string, pepper: string, version: nat,
                                    params: Params, salt: seq<byte>, keyLen: nat, kdf: KeyDerivation)
    requires Derivable(params, keyLen)
    ensures Verify(userPassword, pepper,
                   FormatHash(version, params, salt, kdf(userPassword + pepper, salt, params, keyLen)), kdf)
         == (true, Pass)
  {
    VerifyFormatted(userPassword, pepper, version, params, salt, kdf(userPassword + pepper, salt, params, keyLen), kdf);
  }

  /** The fixed costs are all non-zero, so the library accepts them. */
  lemma CostParamsDerivable()
    ensures Derivable(CostParams, KeyLen as nat)
    ensures CostParams.time == 2 && CostParams.memory == 65536 && CostParams.threads == 2
  {
  }

  /**
    Round trip: with a salt from the randomness source and a non-empty pepper,
    `HashPassword` succeeds and the credential it makes verifies with the same password
    and pepper.
   */
  lemma VerifyHashPassword(password: string, pepper: string, salt: Salt, kdf: KeyDerivation)
    requires pepper != ""
    ensures HashPassword(password, pepper, Read(salt), kdf).1 == Pass
    ensures Verify(password, pepper, HashPassword(password, pepper, Read(salt), kdf).0, kdf) == (true, Pass)
  {
    CostParamsDerivable();
    VerifyUnderStoredParameters(password, pepper, Version, CostParams, salt, KeyLen as nat, kdf);
  }

  /**
    The shape of a new credential: `argon2id$v=19$t=2$m=65536$p=2$` then a 22-character
    salt field and a 43-character hash field, seven `$`-separated fields in all.
   */
  lemma HashPasswordShape(password: string, pepper: string, salt: Salt, kdf: KeyDerivation)
    requires pepper != ""
    ensures var key := kdf(password + pepper, salt, CostParams, KeyLen as nat);
            HashPassword(password, pepper, Read(salt), kdf).0
              == "argon2id$v=19$t=2$m=65536$p=2$" + Encode(salt) + "$" + Encode(key)
    ensures |Split(HashPassword(password, pepper, Read(salt), kdf).0, '$')| == 7
    ensures |Split(HashPassword(password, pepper, Read(salt), kdf).0, '$')[5]| == 22
    ensures |Split(HashPassword(password, pepper, Read(salt), kdf).0, '$')[6]| == 43
  {
    var key := kdf(password + pepper, salt, CostParams, KeyLen as nat);
    assert HashPassword(password, pepper, Read(salt), kdf).0 == FormatHash(Version, CostParams, salt, key);
    CostFormat(salt, key);
  }

  /** A credential written with the fixed costs, a 16-byte salt and a 32-byte key. */
  lemma CostFormat(salt: seq<byte>, key: seq<byte>)
    requires |salt| == SaltLen && |key| == KeyLen as nat
    ensures FormatHash(Version, CostParams, salt, key)
         == "argon2id$v=19$t=2$m=65536$p=2$" + Encode(salt) + "$" + Encode(key)
    ensures |Split(FormatHash(Version, CostParams, salt, key), '$')| == 7
    ensures |Split(FormatHash(Version, CostParams, salt, key), '$')[5]| == 22
    ensures |Split(FormatHash(Version, CostParams, salt, key), '$')[6]| == 43
  {
    CostDigits();
    CostPrefix();
    SplitFormatHash(Version, CostParams, salt, key);
  }

  /** The fixed part of a new credential, field by field and written out. */
  lemma CostPrefix()
    ensures "argon2id" + "$" + ("v=" + "19") + "$" + ("t=" + "2") + "$" + ("m=" + "65536") + "$" + ("p=" + "2") + "$"
         == "argon2id$v=19$t=2$m=65536$p=2$"
  {
  }

  /** The decimal forms of the version and of the fixed costs. */
  lemma CostDigits()
    ensures Decimal(Version) == "19"
    ensures Decimal(2) == "2"
    ensures Decimal(65536) == "65536"
  {
    assert Decimal(6) == "6";
    assert Decimal(65) == "65";
    assert Decimal(655) == "655";
    assert Decimal(6553) == "6553";
  }

  /**
    Only fields 2 to 6 matter: two strings of seven `$`-separated fields that agree
    from the third field on verify alike, whatever their algorithm and version fields.
   */
  lemma OnlyParameterFieldsMatter(userPassword: string, pepper: string, a: string, b: string, kdf: KeyDerivation)
    requires |Split(a, '$')| == 7 && |Split(b, '$')| == 7
    requires Split(a, '$')[2..] == Split(b, '$')[2..]
    ensures Verify(userPassword, pepper, a, kdf) == Verify(userPassword, pepper, b, kdf)
  {
    var pa, pb := Split(a, '$'), Split(b, '$');
    assert pa[2] == pa[2..][0] && pb[2] == pb[2..][0];
    assert pa[3] == pa[2..][1] && pb[3] == pb[2..][1];
    assert pa[4] == pa[2..][2] && pb[4] == pb[2..][2];
    assert pa[5] == pa[2..][3] && pb[5] == pb[2..][3];
    assert pa[6] == pa[2..][4] && pb[6] == pb[2..][4];
  }

  /**
    A stored string with no `$` at all, such as a plain password, is one field and
    gives "invalid password hash format", never `true`.
   */
  lemma NoSeparatorIsMalformed(userPassword: string, pepper: string, stored: string, kdf: KeyDerivation)
    requires '$' !in stored
    ensures Verify(userPassword, pepper, stored, kdf) == (false, Fail(InvalidFormat))
  {
  }

  /** The one-field string "not-a-valid-hash" is refused as malformed. */
  lemma NotAHashIsMalformed(userPassword: string, pepper: string, kdf: KeyDerivation)
    ensures Verify(userPassword, pepper, "not-a-valid-hash", kdf) == (false, Fail(InvalidFormat))
  {
    NoSeparatorIsMalformed(userPassword, pepper, "not-a-valid-hash", kdf);
  }

  /** `subtle.ConstantTimeByteEq`: 1 when the bytes are equal, else 0, computed with
      32-bit wrap-around arithmetic and no branch. */
  function ConstantTimeByteEq(x: byte, y: byte): (r: int)
    ensures r == if x == y then 1 else 0
  {
    ((((x ^ y) as bv32) - 1) >> 31) as int
  }

  /**
    `subtle.ConstantTimeCompare`: 1 exactly when the two slices are equal, else 0.
    Slices of different lengths give 0 at once; otherwise the XOR of every pair of
    bytes is ORed into one accumulator with no early exit, so every byte is examined
    (`examined`) wherever the first difference lies. Two empty slices are equal.
   */
  method ConstantTimeCompare(x: seq<byte>, y: seq<byte>) returns (r: int, ghost examined: nat)
    ensures r == 1 <==> x == y
    ensures r == 0 || r == 1
    ensures |x| == |y| ==> examined == |x|
  {
    if |x| != |y| {
      return 0, 0;
    }
    var v: byte := 0;
    examined := 0;
    for i := 0 to |x|
      invariant v == 0 <==> x[..i] == y[..i]
      invariant examined == i
    {
      assert x[..i + 1] == x[..i] + [x[i]] && y[..i + 1] == y[..i] + [y[i]];
      v := v | (x[i] ^ y[i]);
      examined := examined + 1;
    }
    assert x[..|x|] == x && y[..|y|] == y;
    r := ConstantTimeByteEq(v, 0);
  }

  /**
    `VerifyPassword`: read the credential, derive the key again from password + pepper
    with the parameters, the salt and the hash length read from it, and compare the
    two in constant time. The result is `Verify`'s.
   */
  method VerifyPassword(userPassword: string, pepper: string, hashedPassword: string, kdf: KeyDerivation)
    returns (ok: bool, err: Outcome)
    ensures (ok, err) == Verify(userPassword, pepper, hashedPassword, kdf)
  {
    var parsed := ParseHash(hashedPassword);
    if parsed.Failure? {
      return false, Fail(parsed.error);
    }
    var d := parsed.value;
    if !Derivable(d.params, |d.hash|) {
      return false, Fail(DerivationAbort);
    }
    var hash := kdf(userPassword + pepper, d.salt, d.params, |d.hash|);
    var same, examined := ConstantTimeCompare(hash, d.hash);
    assert examined == |d.hash|;
    if same == 1 {
      return true, Pass;
    }
    return false, Pass;
  }
}

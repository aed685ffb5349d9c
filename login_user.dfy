/** Log-in: the stored `salt:hash` string is parsed and compared with the
    derived key of the supplied password; an unknown e-mail and a wrong
    password fail alike; the result omits the password hash. */
module LoginUser {
  import opened Wrappers
  import opened Text
  import opened Schema
  import opened Store

  const InvalidCredentials := "Invalid email or password"
  const FallbackSecret := "fallback-secret-for-testing"

  /** The salt and hash parts of a stored hash string: the first two pieces of
      its split on ':' (any further pieces are ignored); "" stands for a missing piece. */
  function SaltPart(stored: string): string {
    Split(stored, ':')[0]
  }

  function HashPart(stored: string): string {
    var parts := Split(stored, ':');
    if |parts| >= 2 then parts[1] else ""
  }

  /** `verifyPassword`. `derive(password, salt)` is PBKDF2-HMAC-SHA512 with
      10000 iterations and a 64-byte key; the comparison is `timingSafeEqual`
      on the two hex-decoded buffers, which fails (and is caught) when their
      lengths differ. */
  function VerifyPassword(plain: string, stored: string, derive: (string, string) -> seq<byte>): bool {
    var salt, hash := SaltPart(stored), HashPart(stored);
    if salt == "" || hash == "" then false
    else HexDecode(hash) == HexDecode(HexEncode(derive(plain, salt)))
  }

  /** `hashPassword`: a random salt rendered in hex, ':' and the derived key in hex. */
  function HashPassword(password: string, saltBytes: seq<byte>, derive: (string, string) -> seq<byte>): string {
    var salt := HexEncode(saltBytes);
    salt + ":" + HexEncode(derive(password, salt))
  }

  /** A stored string without a non-empty salt and a non-empty hash part never
      verifies: one with no ':', one starting with ':', or one whose first ':'
      is followed by the end or by another ':'. */
  lemma MalformedStoredHashRejected(plain: string, stored: string, derive: (string, string) -> seq<byte>)
    requires || ':' !in stored
             || stored[0] == ':'
             || exists i :: 0 <= i < |stored| && stored[i] == ':' && ':' !in stored[..i]
                            && (i + 1 == |stored| || stored[i + 1] == ':')
    ensures !VerifyPassword(plain, stored, derive)
  {
    if ':' !in stored {
      SplitWithout(stored, ':');
    } else if stored[0] == ':' {
      assert stored == [] + [':'] + stored[1..];
      SplitAfterHead([], ':', stored[1..]);
    } else {
      var i :| 0 <= i < |stored| && stored[i] == ':' && ':' !in stored[..i]
               && (i + 1 == |stored| || stored[i + 1] == ':');
      var head, rest := stored[..i], stored[i + 1..];
      assert stored == head + [':'] + rest;
      SplitAfterHead(head, ':', rest);
      if rest == [] {
        SplitWithout(rest, ':');
      } else {
        assert rest == [] + [':'] + rest[1..];
        SplitAfterHead([], ':', rest[1..]);
      }
      assert HashPart(stored) == "";
    }
  }

  /** For a well-formed stored string the check accepts exactly the passwords
      whose derived key equals the decoded stored hash. */
  lemma VerifyPasswordIff(plain: string, salt: string, hash: seq<byte>, derive: (string, string) -> seq<byte>)
    requires salt != "" && ':' !in salt && hash != []
    ensures VerifyPassword(plain, salt + ":" + HexEncode(hash), derive) <==> derive(plain, salt) == hash
  {
    var h := HexEncode(hash);
    assert ':' !in h by {
      assert forall i :: 0 <= i < |h| ==> IsLowerHex(h[i]);
    }
    SplitAfterHead(salt, ':', h);
    SplitWithout(h, ':');
    HexRoundTrip(hash);
    HexRoundTrip(derive(plain, salt));
  }

  /** A string made by `hashPassword` verifies the same password, provided the
      salt and the derived key are not empty (32 and 64 bytes in the source). */
  lemma HashThenVerify(password: string, saltBytes: seq<byte>, derive: (string, string) -> seq<byte>)
    requires |saltBytes| > 0 && |derive(password, HexEncode(saltBytes))| > 0
    ensures VerifyPassword(password, HashPassword(password, saltBytes, derive), derive)
  {
    var salt := HexEncode(saltBytes);
    assert ':' !in salt by {
      assert forall i :: 0 <= i < |salt| ==> IsLowerHex(salt[i]);
    }
    VerifyPasswordIff(password, salt, derive(password, salt), derive);
  }

  /** The user as returned to the client: every column except `password_hash`. */
  datatype PublicUser = PublicUser(
    id: int,
    email: string,
    role: UserRole,
    profile: Profile,
    membershipStatus: MembershipStatus,
    createdAt: Timestamp,
    updatedAt: Timestamp)

  function WithoutHash(u: User): PublicUser {
    PublicUser(u.id, u.email, u.role, u.profile, u.membershipStatus, u.createdAt, u.updatedAt)
  }

  function WithHash(p: PublicUser, passwordHash: string): User {
    User(p.id, p.email, passwordHash, p.role, p.profile, p.membershipStatus, p.createdAt, p.updatedAt)
  }

  /** Nothing but the hash is dropped: putting it back gives the stored row. */
  lemma WithoutHashLosesOnlyHash(u: User)
    ensures WithHash(WithoutHash(u), u.passwordHash) == u
    ensures forall v: User :: WithoutHash(v) == WithoutHash(u) ==> v == u.(passwordHash := v.passwordHash)
  {
  }

  /** The token's payload; it expires after seven days. */
  datatype Claims = Claims(userId: int, role: UserRole, email: string)

  datatype Session = Session(user: PublicUser, token: string)

  /** `JWT_SECRET`, unless unset or empty. */
  function JwtSecret(env: Option<string>): (secret: string)
    ensures env.Some? && env.value != "" ==> secret == env.value
    ensures env.None? || env.value == "" ==> secret == FallbackSecret
  {
    if env.Some? && env.value != "" then env.value else FallbackSecret
  }

  /** One call of the handler; `sign` is JWT signing and reads no table. */
  function Login(t: Tables, input: LoginInput, derive: (string, string) -> seq<byte>,
                 sign: (Claims, string) -> string, jwtSecretEnv: Option<string>): Result<Session> {
    match FindByEmail(t, input.email)
    case None => Err(InvalidCredentials)
    case Some(u) =>
      if !VerifyPassword(input.password, u.passwordHash, derive) then Err(InvalidCredentials)
      else Ok(Session(WithoutHash(u), sign(Claims(u.id, u.role, u.email), JwtSecret(jwtSecretEnv))))
  }

  /** Log-in succeeds exactly when some stored user has exactly this e-mail and
      the password verifies against that user's hash; every failure carries the
      same message, so an unknown e-mail cannot be told from a wrong password. */
  lemma LoginSucceedsIff(t: Tables, input: LoginInput, derive: (string, string) -> seq<byte>,
                         sign: (Claims, string) -> string, jwtSecretEnv: Option<string>)
    requires UsersConsistent(t)
    ensures var r := Login(t, input, derive, sign, jwtSecretEnv);
      && (r.Ok? <==> exists id :: id in t.users && t.users[id].email == input.email
                                  && VerifyPassword(input.password, t.users[id].passwordHash, derive))
      && (r.Err? ==> r.message == InvalidCredentials)
  {
    FindByEmailSpec(t, input.email);
  }

  /** A session is the matched stored row minus its hash, with a token over
      that row's id, role and e-mail. */
  lemma SessionIsStoredUser(t: Tables, input: LoginInput, derive: (string, string) -> seq<byte>,
                            sign: (Claims, string) -> string, jwtSecretEnv: Option<string>)
    requires UsersConsistent(t)
    ensures var r := Login(t, input, derive, sign, jwtSecretEnv);
      r.Ok? ==>
        && r.value.user.id in t.users
        && WithHash(r.value.user, t.users[r.value.user.id].passwordHash) == t.users[r.value.user.id]
        && r.value.user.email == input.email
        && r.value.token == sign(Claims(r.value.user.id, r.value.user.role, input.email), JwtSecret(jwtSecretEnv))
  {
    FindByEmailSpec(t, input.email);
  }
}

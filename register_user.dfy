/**
 * User registration (server/src/handlers/register_user.ts).
 *
 * The users table is a `UserStore` object whose `users` sequence the
 * `Register` method extends in place. What the model cannot see is passed
 * in: the hex SHA-256 digest and the JSON serialisation of the token payload
 * are function-valued fields fixed when the store is created (nothing is
 * assumed about them), the two clocks (the database's `NOW()` and the
 * server's `Date.now()`) are parameters, and so is whether the INSERT
 * returned its row. The `id SERIAL` column is the counter `nextId`.
 */
module Registration {
  import opened Wrappers
  import opened Schema
  import Base64

  // ------------------------------------------------------------------ credentials

  const Salt: string := "salt"

  /** `hashPassword`: the digest of the password with the fixed suffix "salt". */
  function HashPassword(digest: string -> string, password: string): (h: string)
    ensures VerifyPassword(digest, password, h)
  {
    digest(password + Salt)
  }

  /** The check the test suite applies to a stored hash: re-hash and compare exactly. */
  predicate VerifyPassword(digest: string -> string, password: string, hash: string) {
    digest(password + Salt) == hash
  }

  /**
   * Hashing is deterministic and verification accepts exactly the stored
   * hash of the password: `verify(p, hash(p))` holds, and `verify(p, h)`
   * holds only for `h == hash(p)`.
   */
  lemma HashThenVerify(digest: string -> string, password: string, hash: string)
    ensures VerifyPassword(digest, password, HashPassword(digest, password))
    ensures VerifyPassword(digest, password, hash) <==> hash == HashPassword(digest, password)
  {
  }

  // ------------------------------------------------------------------ session token

  /** 24 hours, in milliseconds. */
  const TokenLifetimeMs: int := 24 * 60 * 60 * 1000

  /** The token payload `{ userId, email, exp }`. */
  datatype Claim = Claim(userId: int, email: string, exp: Timestamp)

  function TokenClaim(userId: int, email: string, clock: Timestamp): (c: Claim)
    ensures c.userId == userId && c.email == email
    ensures c.exp == clock + 86_400_000
  {
    Claim(userId, email, clock + TokenLifetimeMs)
  }

  /**
   * `generateToken`: the base64 text of the serialised claim. Base64
   * decoding the token gives back the serialised payload exactly.
   */
  function GenerateToken(serialise: Claim -> seq<Base64.byte>, userId: int, email: string, clock: Timestamp): (token: string)
    ensures Base64.Decode(token) == Some(serialise(TokenClaim(userId, email, clock)))
  {
    var payload := serialise(TokenClaim(userId, email, clock));
    Base64.DecodeEncode(payload);
    Base64.Encode(payload)
  }

  // ------------------------------------------------------------------ registration

  datatype RegisterError = EmailAlreadyRegistered | FailedToCreateUser

  /** The text of the error each failure throws. */
  function Message(e: RegisterError): (m: string)
    ensures m == "Email is already registered" <==> e == EmailAlreadyRegistered
    ensures m == "Failed to create user" <==> e == FailedToCreateUser
  {
    match e
    case EmailAlreadyRegistered => "Email is already registered"
    case FailedToCreateUser => "Failed to create user"
  }

  /** The response `{ user, token }`; the schema allows the token to be missing. */
  datatype AuthResponse = AuthResponse(user: PublicUser, token: Option<string>)

  /** `SELECT id FROM users WHERE email = ...` returns a row: exact, case-sensitive string equality. */
  function EmailTaken(users: seq<User>, email: string): (taken: bool)
    ensures taken <==> exists u :: u in users && u.email == email
  {
    exists i :: 0 <= i < |users| && users[i].email == email
  }

  /**
   * The example of the test suite: with `"test@example.com"` stored,
   * `"TEST@EXAMPLE.COM"` is not taken, so registering it goes ahead.
   */
  lemma EmailCaseMatters(u: User)
    requires u.email == "test@example.com"
    ensures EmailTaken([u], "test@example.com")
    ensures !EmailTaken([u], "TEST@EXAMPLE.COM")
  {
    assert [u][0] == u;
    assert "TEST@EXAMPLE.COM"[0] != "test@example.com"[0];
  }

  /** The row the INSERT stores: the input, the hashed password, both timestamps `NOW()`. */
  function NewUser(id: int, input: RegisterUserInput, digest: string -> string, dbNow: Timestamp): (u: User)
    ensures u.id == id && u.email == input.email && u.name == input.name
    ensures u.ui_color_theme == input.ui_color_theme
    ensures VerifyPassword(digest, input.password, u.password_hash)
    ensures u.created_at == dbNow && u.updated_at == dbNow
  {
    User(id, input.email, HashPassword(digest, input.password), input.name, input.ui_color_theme, dbNow, dbNow)
  }

  class UserStore {
    /** The rows of the users table, in insertion order. */
    var users: seq<User>
    /** The next value of the `id SERIAL` sequence. */
    var nextId: int
    /** The hex SHA-256 digest (`createHash('sha256')...digest('hex')`). */
    const digest: string -> string
    /** `JSON.stringify` of a payload followed by its UTF-8 bytes. */
    const serialise: Claim -> seq<Base64.byte>

    /**
     * The table's invariant: e-mail addresses are unique, and ids are
     * positive, increasing in insertion order and below the sequence's next value.
     */
    ghost predicate Valid()
      reads this
    {
      && (forall i, j :: 0 <= i < j < |users| ==> users[i].email != users[j].email)
      && (forall i, j :: 0 <= i < j < |users| ==> users[i].id < users[j].id)
      && (forall i :: 0 <= i < |users| ==> 1 <= users[i].id < nextId)
      && nextId >= 1
    }

    /** An empty table whose sequence starts at 1. */
    constructor (digest: string -> string, serialise: Claim -> seq<Base64.byte>)
      ensures Valid()
      ensures users == [] && nextId == 1
      ensures this.digest == digest && this.serialise == serialise
    {
      users := [];
      nextId := 1;
      this.digest := digest;
      this.serialise := serialise;
    }

    /**
     * `registerUser`. A taken e-mail fails with `EmailAlreadyRegistered`, an
     * INSERT that returns no row fails with `FailedToCreateUser`; both leave
     * the table as it was. Otherwise exactly one row is appended, with a
     * fresh id, and the response carries its public view and a token for it.
     */
    method Register(input: RegisterUserInput, dbNow: Timestamp, clock: Timestamp, insertReturnsRow: bool)
      returns (r: Result<AuthResponse, RegisterError>)
      requires Valid()
      modifies this
      ensures Valid()
      ensures EmailTaken(old(users), input.email) ==>
        r == Failure(EmailAlreadyRegistered) && users == old(users) && nextId == old(nextId)
      ensures !EmailTaken(old(users), input.email) && !insertReturnsRow ==>
        r == Failure(FailedToCreateUser) && users == old(users) && nextId == old(nextId)
      ensures !EmailTaken(old(users), input.email) && insertReturnsRow ==>
        var u := NewUser(old(nextId), input, digest, dbNow);
        && users == old(users) + [u]
        && nextId == old(nextId) + 1
        && (forall v :: v in old(users) ==> v.id != u.id)
        && r == Success(AuthResponse(ToPublic(u), Some(GenerateToken(serialise, u.id, u.email, clock))))
    {
      if EmailTaken(users, input.email) {
        return Failure(EmailAlreadyRegistered);
      }
      var passwordHash := HashPassword(digest, input.password);
      if !insertReturnsRow {
        return Failure(FailedToCreateUser);
      }
      var row := User(nextId, input.email, passwordHash, input.name, input.ui_color_theme, dbNow, dbNow);
      users := users + [row];
      nextId := nextId + 1;
      var token := GenerateToken(serialise, row.id, row.email, clock);
      r := Success(AuthResponse(ToPublic(row), Some(token)));
    }
  }

  /**
   * Two registrations in a row. With the same e-mail, once the first has
   * stored its row the second fails with `EmailAlreadyRegistered`, whatever
   * its password, name or theme; with a different e-mail that was not taken
   * before, the second succeeds; when both succeed they are given different ids.
   */
  method RegisterTwice(store: UserStore, first: RegisterUserInput, second: RegisterUserInput, now: Timestamp)
    returns (r1: Result<AuthResponse, RegisterError>, r2: Result<AuthResponse, RegisterError>)
    requires store.Valid()
    modifies store
    ensures store.Valid()
    ensures first.email == second.email && r1.Success? ==> r2 == Failure(EmailAlreadyRegistered)
    ensures first.email != second.email && !EmailTaken(old(store.users), second.email) ==> r2.Success?
    ensures r1.Success? && r2.Success? ==> r1.value.user.id != r2.value.user.id
    ensures r1.Success? && r2.Success? ==> |store.users| == |old(store.users)| + 2
  {
    r1 := store.Register(first, now, now, true);
    if r1.Success? {
      assert store.users[|store.users| - 1].email == first.email;
      assert r1.value.user.id == store.users[|store.users| - 1].id;
    }
    r2 := store.Register(second, now, now, true);
  }
}

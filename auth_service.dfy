/** `AuthService`: signup stores a salted scrypt credential, signin checks a
    password against the credential of the first user with the email.
    The key-derivation function and the random salt are inputs: `scrypt`
    is any deterministic function and `randomBytes(8)` any 8 bytes. */
module AuthService {
  import opened Outcomes
  import opened Hex
  import opened JsStrings
  import opened Users

  /** `scrypt(password, salt, keylen)`, seen from outside. */
  type Scrypt = (string, string, nat) -> seq<byte>

  const SaltLength: nat := 8
  const KeyLength: nat := 32

  /** The result of `randomBytes(8)`. */
  type SaltBytes = s: seq<byte> | |s| == SaltLength witness [0, 0, 0, 0, 0, 0, 0, 0]

  /** A key-derivation function that honours the requested key length. */
  ghost predicate KeepsKeyLength(scrypt: Scrypt) {
    forall password, salt, n :: |scrypt(password, salt, n)| == n
  }

  /** The credential signup stores: the salt in hex, a `.`, and the derived
      key in hex, the key derived from the password and the HEX salt string. */
  function HashPassword(scrypt: Scrypt, password: string, saltBytes: seq<byte>): (c: string)
    ensures SplitCredential(c).0 == ToHex(saltBytes)
    ensures PasswordMatches(scrypt, c, password)
  {
    var salt := ToHex(saltBytes);
    var digest := ToHex(scrypt(password, salt, KeyLength));
    assert salt + "." + digest == salt + ['.'] + digest;
    SplitPair(salt, '.', digest);
    salt + "." + digest
  }

  /** `const [salt, storedHash] = stored.split('.')`: the first two pieces;
      `storedHash` is absent (undefined) when there is no `.`. */
  function SplitCredential(stored: string): (r: (string, Option<string>))
    ensures r.1.None? <==> '.' !in stored
    ensures '.' !in r.0
  {
    var parts := Split(stored, '.');
    (parts[0], if |parts| >= 2 then Some(parts[1]) else None)
  }

  /** The check signin makes: the stored digest equals the hex of the key
      derived from the offered password and the stored salt. An absent
      digest never equals a string. */
  predicate PasswordMatches(scrypt: Scrypt, stored: string, password: string)
    ensures PasswordMatches(scrypt, stored, password) ==> '.' in stored
  {
    var (salt, storedHash) := SplitCredential(stored);
    storedHash == Some(ToHex(scrypt(password, salt, KeyLength)))
  }

  /** The stored credential is 16 hex digits, a `.`, and 64 hex digits. */
  lemma CredentialFormat(scrypt: Scrypt, password: string, saltBytes: SaltBytes)
    requires KeepsKeyLength(scrypt)
    ensures var c := HashPassword(scrypt, password, saltBytes);
            && |c| == 2 * SaltLength + 1 + 2 * KeyLength
            && c[2 * SaltLength] == '.'
            && AllHexDigits(c[..2 * SaltLength])
            && AllHexDigits(c[2 * SaltLength + 1..])
  {
    var salt := ToHex(saltBytes);
    var digest := ToHex(scrypt(password, salt, KeyLength));
    var c := HashPassword(scrypt, password, saltBytes);
    assert c[..2 * SaltLength] == salt;
    assert c[2 * SaltLength + 1..] == digest;
  }

  /** Splitting a stored credential gives back exactly the salt and the
      digest signup joined, because hex never contains `.`. */
  lemma SplitHashPassword(scrypt: Scrypt, password: string, saltBytes: seq<byte>)
    ensures SplitCredential(HashPassword(scrypt, password, saltBytes))
         == (ToHex(saltBytes), Some(ToHex(scrypt(password, ToHex(saltBytes), KeyLength))))
  {
    var salt := ToHex(saltBytes);
    var digest := ToHex(scrypt(password, salt, KeyLength));
    assert salt + "." + digest == salt + ['.'] + digest;
    SplitPair(salt, '.', digest);
  }

  /** A credential made from a password accepts that password, and accepts
      another password exactly when the derived keys coincide. */
  lemma HashPasswordVerifies(scrypt: Scrypt, password: string, saltBytes: seq<byte>, other: string)
    ensures PasswordMatches(scrypt, HashPassword(scrypt, password, saltBytes), password)
    ensures var salt := ToHex(saltBytes);
            PasswordMatches(scrypt, HashPassword(scrypt, password, saltBytes), other) <==>
              scrypt(other, salt, KeyLength) == scrypt(password, salt, KeyLength)
  {
    var salt := ToHex(saltBytes);
    SplitHashPassword(scrypt, password, saltBytes);
    ToHexInjective(scrypt(other, salt, KeyLength), scrypt(password, salt, KeyLength));
  }

  /** A stored value without `.` has no digest part and matches no password. */
  lemma NoSeparatorNeverMatches(scrypt: Scrypt, stored: string, password: string)
    requires '.' !in stored
    ensures !PasswordMatches(scrypt, stored, password)
  {
  }

  /** `signup(email, password)`: fails with BadRequest "email in use" when
      some user has the email, and then writes nothing; otherwise stores a
      new user whose password is the salted credential and returns exactly
      that user. */
  method Signup(store: UserStore, email: string, password: string, saltBytes: SaltBytes, scrypt: Scrypt)
    returns (r: Result<User>)
    requires store.Valid()
    modifies store
    ensures store.Valid()
    ensures FindByEmail(old(store.users), email) != [] ==>
              && r == Err(BadRequest("email in use"))
              && store.users == old(store.users) && store.nextId == old(store.nextId)
    ensures FindByEmail(old(store.users), email) == [] ==>
              && r == Ok(User(old(store.nextId), email, HashPassword(scrypt, password, saltBytes), true))
              && store.users == old(store.users) + [r.value]
              && store.nextId == old(store.nextId) + 1
  {
    var users := FindByEmail(store.users, email);
    if |users| > 0 {
      return Err(BadRequest("email in use"));
    }
    var salt := ToHex(saltBytes);
    var hash := scrypt(password, salt, KeyLength);
    var result := salt + "." + ToHex(hash);
    var user := store.Create(email, result);
    return Ok(user);
  }

  /** `signin(email, password)`: takes the first user `find(email)` lists,
      splits its credential, recomputes the digest and compares. */
  function Signin(users: seq<User>, email: string, password: string, scrypt: Scrypt): (r: Result<User>)
    ensures r == Err(NotFound("user not found")) <==> forall u :: u in users ==> u.email != email
    ensures r.Err? ==> r.error == NotFound("user not found") || r.error == BadRequest("bad password")
    ensures r.Ok? ==> r.value in users && r.value.email == email && '.' in r.value.password
  {
    var found := FindByEmail(users, email);
    if found == [] then Err(NotFound("user not found"))
    else
      var user := found[0];
      var (salt, storedHash) := SplitCredential(user.password);
      if storedHash != Some(ToHex(scrypt(password, salt, KeyLength))) then Err(BadRequest("bad password"))
      else Ok(user)
  }

  /** Signin looks at the first match only: rows added later, even with the
      same email, do not change its outcome. */
  lemma SigninIgnoresLaterRows(users: seq<User>, later: User, email: string, password: string, scrypt: Scrypt)
    requires exists u :: u in users && u.email == email
    ensures Signin(users + [later], email, password, scrypt) == Signin(users, email, password, scrypt)
  {
    FindByEmailAppend(users, later, email);
  }

  /** Signin succeeds exactly when the first match's credential accepts the
      password, and then returns that user. */
  lemma SigninDecidedByFirstMatch(users: seq<User>, k: nat, password: string, scrypt: Scrypt)
    requires k < |users|
    requires forall j :: 0 <= j < k ==> users[j].email != users[k].email
    ensures Signin(users, users[k].email, password, scrypt)
         == if PasswordMatches(scrypt, users[k].password, password) then Ok(users[k])
            else Err(BadRequest("bad password"))
  {
    FindByEmailFirst(users, users[k].email, k);
  }

  /** Round trip: after a successful signup for an email no one had, signin
      with the same password returns the new user, and signin with another
      password succeeds only if it derives the same key. */
  lemma SignupThenSignin(users: seq<User>, id: int, email: string, password: string,
                         saltBytes: seq<byte>, scrypt: Scrypt, other: string)
    requires FindByEmail(users, email) == []
    ensures var u := User(id, email, HashPassword(scrypt, password, saltBytes), true);
            && Signin(users + [u], email, password, scrypt) == Ok(u)
            && Signin(users + [u], email, other, scrypt)
               == if scrypt(other, ToHex(saltBytes), KeyLength) == scrypt(password, ToHex(saltBytes), KeyLength)
                  then Ok(u) else Err(BadRequest("bad password"))
  {
    var u := User(id, email, HashPassword(scrypt, password, saltBytes), true);
    FindByEmailAppend(users, u, email);
    assert FindByEmail(users + [u], email) == [u];
    HashPasswordVerifies(scrypt, password, saltBytes, other);
  }

  /** Signing up twice with the same email: the second attempt finds the
      first user and fails. */
  lemma SecondSignupSeesFirst(users: seq<User>, u: User)
    ensures FindByEmail(users + [u], u.email) != []
  {
    FindByEmailAppend(users, u, u.email);
  }
}

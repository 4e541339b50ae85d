/**
 * The User controller: the generic CRUD methods with password hashing on
 * create and update, lookup by email, and the login / logout session logic
 * over the AccessToken table. The bcrypt primitives arrive as the parameters
 * `hash` and `compare`.
 */
module Users {
  import opened Records
  import opened Crud
  import opened Db

  /** Lifetime of a session token in seconds: two weeks. */
  const TokenTtl: nat := 1209600

  /** A request payload object. The create and update overrides overwrite its password in place. */
  class Payload {
    var fields: Record

    constructor (fields: Record)
      ensures this.fields == fields
    {
      this.fields := fields;
    }
  }

  /** The payload carries a textual `password` field. */
  predicate HasTextPassword(data: Record)
  {
    "password" in data && data["password"].Str?
  }

  /** The payload as the overrides hand it to the base CRUD: a textual password becomes its digest. */
  function HashedPassword(data: Record, hash: string -> string): (r: Record)
    ensures r.Keys == data.Keys
    ensures forall k :: k in data && k != "password" ==> r[k] == data[k]
    ensures HasTextPassword(data) ==> r["password"] == Str(hash(data["password"].s))
    ensures !HasTextPassword(data) ==> r == data
  {
    if HasTextPassword(data) then data["password" := Str(hash(data["password"].s))] else data
  }

  /** A user's JSON form: every column except the hidden password. */
  function Visible(rec: Record): (r: Record)
    ensures "password" !in r
    ensures r.Keys == rec.Keys - {"password"}
    ensures forall k :: k in r ==> r[k] == rec[k]
  {
    rec - {"password"}
  }

  /** `password` is accepted against the stored digest; a row without a textual digest accepts nothing. */
  predicate PasswordAccepted(rec: Record, password: string, compare: (string, string) -> bool)
  {
    HasTextPassword(rec) && compare(password, rec["password"].s)
  }

  /** The AccessToken payload a successful login inserts. */
  function TokenData(userId: Value): (t: Record)
    ensures t.Keys == {"userId", "ttl"}
    ensures t["userId"] == userId && t["ttl"] == Int(TokenTtl)
  {
    map["userId" := userId, "ttl" := Int(TokenTtl)]
  }

  /** The user with `email`, as JSON (password hidden) or in full; None, not an error, when there is none. */
  method FetchByEmail(users: Table, email: string, json: bool) returns (r: Option<Record>)
    ensures r.None? <==> !EmailExists(users.rows, email)
    ensures r.Some? ==> exists id :: id in users.rows && HasEmail(users.rows[id], email) &&
                                     r.value == (if json then Visible(users.rows[id]) else users.rows[id])
  {
    if id :| id in users.rows && HasEmail(users.rows[id], email) {
      r := Some(if json then Visible(users.rows[id]) else users.rows[id]);
    } else {
      r := None;
    }
  }

  /**
   * Checks the credentials and, when they hold, opens a session: one new
   * token for the matched user with a two-week ttl. A failure issues nothing.
   */
  method Login(users: Table, tokens: Table, email: string, password: string, compare: (string, string) -> bool)
    returns (r: Result<Record>)
    requires users.Valid() && tokens.Valid() && users != tokens
    modifies tokens
    ensures tokens.Valid()
    ensures r == Err(NotFound) <==> !EmailExists(users.rows, email)
    ensures r.Err? ==> (r.error == NotFound || r.error == LoginFailed)
    ensures r.Err? ==> tokens.rows == old(tokens.rows) && tokens.nextId == old(tokens.nextId)
    ensures r == Err(LoginFailed) ==>
      exists id :: id in users.rows && HasEmail(users.rows[id], email) && !PasswordAccepted(users.rows[id], password, compare)
    ensures r.Ok? ==>
      exists id :: id in users.rows && HasEmail(users.rows[id], email) && PasswordAccepted(users.rows[id], password, compare) &&
                   r.value == WithId(TokenData(Int(id)), old(tokens.nextId))
    ensures r.Ok? ==> tokens.rows == old(tokens.rows)[old(tokens.nextId) := r.value] && tokens.nextId == old(tokens.nextId) + 1
    ensures Unique(users.rows, "email") ==>
      (r.Ok? <==> exists id :: id in users.rows && HasEmail(users.rows[id], email) && PasswordAccepted(users.rows[id], password, compare))
  {
    var instance := FetchByEmail(users, email, false);
    if instance.None? {
      return Err(NotFound);
    }
    var full := instance.value;
    ghost var uid :| uid in users.rows && HasEmail(users.rows[uid], email) && full == users.rows[uid];
    if !PasswordAccepted(full, password, compare) {
      return Err(LoginFailed);
    }
    var token := tokens.Create(TokenData(full["id"]));
    r := Ok(token);
  }

  /** Closes the session `token`; an unknown token fails with LogoutFailed and changes nothing. */
  method Logout(tokens: Table, token: nat) returns (r: Result<()>)
    requires tokens.Valid()
    modifies tokens
    ensures tokens.Valid() && tokens.nextId == old(tokens.nextId)
    ensures token !in old(tokens.rows) ==> r == Err(LogoutFailed) && tokens.rows == old(tokens.rows)
    ensures token in old(tokens.rows) ==> r == Ok(()) && tokens.rows == old(tokens.rows) - {token}
  {
    ExistsByKey(tokens.rows, tokens.nextId, token);
    var found := tokens.Exists(Where("id", Int(token)));
    if !found {
      return Err(LogoutFailed);
    }
    tokens.DestroyById(token);
    r := Ok(());
  }

  /** The create override: hashes a textual password in the payload, then the base create. */
  method Create(users: Table, data: Payload, hash: string -> string) returns (r: Record)
    requires users.Valid()
    modifies users, data
    ensures users.Valid()
    ensures data.fields == HashedPassword(old(data.fields), hash)
    ensures r == WithId(data.fields, old(users.nextId))
    ensures users.rows == old(users.rows)[old(users.nextId) := r] && users.nextId == old(users.nextId) + 1
  {
    if HasTextPassword(data.fields) {
      data.fields := data.fields["password" := Str(hash(data.fields["password"].s))];
    }
    r := users.Create(data.fields);
  }

  /** The update override: hashes a textual password in the payload, then the base update. */
  method UpdateById(users: Table, id: nat, data: Payload, hash: string -> string) returns (r: Option<Record>)
    requires users.Valid()
    modifies users, data
    ensures users.Valid() && users.nextId == old(users.nextId)
    ensures data.fields == HashedPassword(old(data.fields), hash)
    ensures id !in old(users.rows) ==> r == None && users.rows == old(users.rows)
    ensures id in old(users.rows) ==>
      r == Some(Patched(old(users.rows)[id], data.fields, id)) && users.rows == old(users.rows)[id := r.value]
  {
    if HasTextPassword(data.fields) {
      data.fields := data.fields["password" := Str(hash(data.fields["password"].s))];
    }
    r := users.UpdateById(id, data.fields);
  }

  /**
   * Sign-up followed by login with the same credentials, as the session set-up
   * of the order integration suite does: when `compare` accepts every
   * password against its own digest, the login succeeds for the new user.
   */
  method SignupThenLogin(users: Table, tokens: Table, email: string, password: string,
                         hash: string -> string, compare: (string, string) -> bool)
    returns (r: Result<Record>)
    requires users.Valid() && tokens.Valid() && users != tokens
    requires forall p :: compare(p, hash(p))
    requires Unique(users.rows, "email") && !EmailExists(users.rows, email)
    modifies users, tokens
    ensures r.Ok? && r.value.Keys == {"id", "userId", "ttl"}
    ensures r.value["userId"] == Int(old(users.nextId)) && r.value["ttl"] == Int(TokenTtl)
    ensures tokens.rows == old(tokens.rows)[old(tokens.nextId) := r.value]
  {
    var data := new Payload(map["email" := Str(email), "password" := Str(password)]);
    var newId := users.nextId;
    var user := Create(users, data, hash);
    assert HasEmail(user, email) && PasswordAccepted(user, password, compare);
    FreshValueStaysUnique(old(users.rows), "email", newId, user);
    r := Login(users, tokens, email, password, compare);
    ghost var uid :| uid in users.rows && HasEmail(users.rows[uid], email) && PasswordAccepted(users.rows[uid], password, compare) &&
                     r.value == WithId(TokenData(Int(uid)), old(tokens.nextId));
    assert uid == newId;
  }
}

/**
  * `/auth/register` and `/auth/login`. Password hashing (bcrypt) and token
  * signing (jwt) are parameters; the users table is a class whose rows the
  * register handler extends.
  */
module AuthRoutes {
  import opened Wrappers
  import opened Seqs
  import opened Js
  import opened Http
  import opened AuthMiddleware

  datatype User = User(id: int, name: string, email: string, password: string, role: string, createdAt: int)

  /** The columns register selects for its answer: everything but the password. */
  datatype RegisteredUser = RegisteredUser(id: int, name: string, email: string, role: string, createdAt: int)

  /** The user projection login answers with. */
  datatype UserSummary = UserSummary(id: int, name: string, email: string, role: string)

  datatype Session = Session(token: string, user: UserSummary)

  /** bcrypt's `hash(password)` and `compare(password, hash)`, uninterpreted. */
  datatype Hasher = Hasher(hash: string -> string, matches: (string, string) -> bool)

  /** Seconds in the seven days of `expiresIn: "7d"`. */
  const TokenLifetime: int := 7 * 24 * 60 * 60

  predicate UniqueEmails(rows: seq<User>)
  {
    forall i, j :: 0 <= i < j < |rows| ==> rows[i].email != rows[j].email
  }

  class UserTable {
    var rows: seq<User>
    var nextId: int

    ghost predicate Valid()
      reads this
    {
      && 1 <= nextId
      && (forall i :: 0 <= i < |rows| ==> 1 <= rows[i].id < nextId)
      && (forall i, j :: 0 <= i < j < |rows| ==> rows[i].id != rows[j].id)
      && UniqueEmails(rows)
    }

    constructor ()
      ensures Valid() && rows == [] && nextId == 1
    {
      rows, nextId := [], 1;
    }
  }

  /** `findUnique({ where: { email } })`: the position of the row with that email, or -1. */
  function ByEmail(rows: seq<User>, email: string): (k: int)
    ensures -1 <= k < |rows|
    ensures k >= 0 ==> rows[k].email == email
    ensures k < 0 <==> forall i :: 0 <= i < |rows| ==> rows[i].email != email
  {
    IndexWhere(rows, (u: User) => u.email == email)
  }

  /** The user columns other listings join in (`select: { id, name, email }`). */
  datatype UserContact = UserContact(id: int, name: string, email: string)

  /** The contact of the user with this id, when there is one. */
  function ContactOf(users: seq<User>, id: int): (c: Option<UserContact>)
    ensures c.Some? <==> exists u :: u in users && u.id == id
    ensures c.Some? ==> exists u :: u in users && u.id == id && c.value == UserContact(u.id, u.name, u.email)
  {
    var k := IndexWhere(users, (u: User) => u.id == id);
    if k < 0 then None
    else
      assert users[k] in users;
      Some(UserContact(users[k].id, users[k].name, users[k].email))
  }

  /** The summary (id, name, email and role) of the user with this id, when there is one. */
  function SummaryOf(users: seq<User>, id: int): (c: Option<UserSummary>)
    ensures c.Some? <==> exists u :: u in users && u.id == id
    ensures c.Some? ==> exists u :: u in users && u.id == id && c.value == UserSummary(u.id, u.name, u.email, u.role)
  {
    var k := IndexWhere(users, (u: User) => u.id == id);
    if k < 0 then None
    else
      assert users[k] in users;
      Some(UserSummary(users[k].id, users[k].name, users[k].email, users[k].role))
  }

  /** `role || "employee"` for a role the body supplied as text or left falsy. */
  function RoleOf(role: Value): string
  {
    if Truthy(role) && role.Str? then role.s else "employee"
  }

  /** The row register creates. */
  function NewUser(id: int, name: string, email: string, password: string, role: Value, hasher: Hasher, now: int): User
  {
    User(id, name, email, hasher.hash(password), RoleOf(role), now)
  }

  /**
    * POST /auth/register. 400 when name, email or password is falsy, 400 when
    * the email is taken; otherwise a user is added with the hashed password
    * and role defaulting to "employee", and 201 answers without the password.
    * Values of the wrong JSON type make the database or bcrypt throw: 500.
    */
  method Register(users: UserTable, hasher: Hasher, now: int, name: Value, email: Value, password: Value, role: Value)
    returns (r: Reply<RegisteredUser>)
    requires users.Valid()
    modifies users
    ensures users.Valid()
    ensures !Truthy(name) || !Truthy(email) || !Truthy(password) ==>
      r == Err(400, "name, email and password are required")
    ensures Truthy(name) && Truthy(password) && email.Str? && email.s != "" && ByEmail(old(users.rows), email.s) >= 0 ==>
      r == Err(400, "Email already registered")
    ensures r.Err? ==> users.rows == old(users.rows) && users.nextId == old(users.nextId)
    ensures r.Ok? <==>
      && Truthy(name) && name.Str? && Truthy(email) && email.Str? && Truthy(password) && password.Str?
      && (!Truthy(role) || role.Str?) && ByEmail(old(users.rows), email.s) < 0
    ensures r.Ok? ==>
      var u := NewUser(old(users.nextId), name.s, email.s, password.s, role, hasher, now);
      && r == Ok(201, RegisteredUser(u.id, u.name, u.email, u.role, u.createdAt))
      && users.rows == old(users.rows) + [u]
      && users.nextId == old(users.nextId) + 1
  {
    if !Truthy(name) || !Truthy(email) || !Truthy(password) {
      return Err(400, "name, email and password are required");
    }
    if !email.Str? {
      return Err(500, ServerError);
    }
    if ByEmail(users.rows, email.s) >= 0 {
      return Err(400, "Email already registered");
    }
    if !password.Str? || !name.Str? || (Truthy(role) && !role.Str?) {
      return Err(500, ServerError);
    }
    var u := NewUser(users.nextId, name.s, email.s, password.s, role, hasher, now);
    users.rows := users.rows + [u];
    users.nextId := users.nextId + 1;
    r := Ok(201, RegisteredUser(u.id, u.name, u.email, u.role, u.createdAt));
  }

  /** The claims login signs: the user's id and role, issued now, expiring seven days later. */
  function TokenFor(u: User, now: int): TokenPayload
  {
    TokenPayload(u.id, u.role, now / 1000, now / 1000 + TokenLifetime)
  }

  /** The message login answers with when the error it caught carries no text of its own. */
  const LoginCrash: string := "Server error (see console)"

  /**
    * POST /auth/login, a read-only lookup. 400 when email or password is
    * falsy; the same 401 for an unknown email and for a wrong password;
    * otherwise a token over {userId, role} and the user without password.
    */
  function Login(users: seq<User>, hasher: Hasher, sign: TokenPayload -> string, now: int, email: Value, password: Value)
    : (r: Reply<Session>)
    requires UniqueEmails(users)
    ensures r.status == 400 <==> !Truthy(email) || !Truthy(password)
    ensures r.status == 400 ==> r == Err(400, "Email and password are required")
    ensures r.status == 401 ==> r == Err(401, "Invalid email or password")
    ensures Truthy(email) && Truthy(password) && email.Str? && ByEmail(users, email.s) < 0 ==>
      r == Err(401, "Invalid email or password")
    ensures forall i :: 0 <= i < |users| ==>
      ((Truthy(email) && Truthy(password) && email == Str(users[i].email) && password.Str? &&
        !hasher.matches(password.s, users[i].password)) ==> r == Err(401, "Invalid email or password"))
    ensures r.Ok? <==>
      (Truthy(email) && Truthy(password) && email.Str? && password.Str? &&
       exists i :: 0 <= i < |users| && users[i].email == email.s && hasher.matches(password.s, users[i].password))
    ensures forall i :: 0 <= i < |users| && r.Ok? && email == Str(users[i].email) ==>
      var u := users[i];
      r == Ok(200, Session(sign(TokenFor(u, now)), UserSummary(u.id, u.name, u.email, u.role)))
  {
    if !Truthy(email) || !Truthy(password) then Err(400, "Email and password are required")
    else if !email.Str? then Err(500, LoginCrash)
    else
      var k := ByEmail(users, email.s);
      if k < 0 then Err(401, "Invalid email or password")
      else if !password.Str? then Err(500, LoginCrash)
      else if !hasher.matches(password.s, users[k].password) then Err(401, "Invalid email or password")
      else
        var u := users[k];
        Ok(200, Session(sign(TokenFor(u, now)), UserSummary(u.id, u.name, u.email, u.role)))
  }

  /**
    * After a successful registration, logging in with the same email and
    * password succeeds and reports the registered identity and role, provided
    * the hash of a password matches that password.
    */
  lemma RegisteredUserCanLogin(rows: seq<User>, hasher: Hasher, sign: TokenPayload -> string, now: int,
                               id: int, name: string, email: string, password: string, role: Value, createdAt: int)
    requires UniqueEmails(rows) && ByEmail(rows, email) < 0
    requires email != "" && password != ""
    requires forall p :: hasher.matches(p, hasher.hash(p))
    ensures var u := NewUser(id, name, email, password, role, hasher, createdAt);
      && UniqueEmails(rows + [u])
      && Login(rows + [u], hasher, sign, now, Str(email), Str(password))
         == Ok(200, Session(sign(TokenPayload(id, u.role, now / 1000, now / 1000 + TokenLifetime)),
                            UserSummary(id, name, email, u.role)))
  {
    var u := NewUser(id, name, email, password, role, hasher, createdAt);
    var all := rows + [u];
    assert all[|rows|] == u;
    assert hasher.matches(password, u.password);
    var k := ByEmail(all, email);
    assert k == |rows|;
  }
}

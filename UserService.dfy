/** The user table, keyed by e-mail address: get-or-create at login, lookups,
    partial updates and the role check that gates room administration. */
module Users {
  import opened Wrappers

  /** The range of a C# `int`, the type of the phone column. */
  newtype Int32 = x: int | -0x8000_0000 <= x < 0x8000_0000

  /** New users get `User`; the client shows the room-creation controls only
      to role number 0, here `Admin`. */
  datatype UserRole = Admin | User

  datatype User = User(email: string, phone: Int32, username: string, role: UserRole)

  /** The e-mail address is the key: each row is stored under its own address. */
  predicate KeyedByEmail(users: map<string, User>)
  {
    forall e :: e in users ==> users[e].email == e
  }

  /** The part of `email` before its first '@' (all of it when there is none),
      i.e. `email.Split('@')[0]`. */
  function LocalPart(email: string): (p: string)
    ensures p <= email
    ensures '@' !in p
    ensures |p| < |email| ==> email[|p|] == '@'
    decreases |email|
  {
    if email == [] || email[0] == '@' then []
    else [email[0]] + LocalPart(email[1..])
  }

  /** Login: the stored user if there is one, otherwise a new row with phone 0,
      role `User`, and the given name or else the address's local part. */
  function GetOrCreate(users: map<string, User>, email: string, username: Option<string>)
    : (res: (User, map<string, User>))
    ensures email in res.1 && res.1[email] == res.0
    ensures email in users ==> res.0 == users[email] && res.1 == users
    ensures email !in users ==> res.1 == users[email := res.0]
    ensures email !in users ==> res.0.email == email && res.0.phone == 0 && res.0.role == UserRole.User
    ensures email !in users && username.Some? ==> res.0.username == username.value
    ensures email !in users && username.None? ==> res.0.username == LocalPart(email)
    ensures KeyedByEmail(users) ==> KeyedByEmail(res.1)
  {
    if email in users then (users[email], users)
    else
      var user := User.User(email, 0, username.GetOr(LocalPart(email)), UserRole.User);
      (user, users[email := user])
  }

  /** A second login with the same address returns the same user and leaves
      the table as the first left it, whatever name it passes. */
  lemma GetOrCreateIdempotent(users: map<string, User>, email: string,
                              first: Option<string>, second: Option<string>)
    ensures var (u, t) := GetOrCreate(users, email, first);
      GetOrCreate(t, email, second) == (u, t)
  {
  }

  /** Role change: refused for an unknown address; otherwise only that user's
      role changes. */
  function UpdateRole(users: map<string, User>, email: string, role: UserRole)
    : (res: (bool, map<string, User>))
    ensures res.0 <==> email in users
    ensures !res.0 ==> res.1 == users
    ensures res.0 ==> res.1.Keys == users.Keys
    ensures res.0 ==> res.1[email].role == role
    ensures res.0 ==> res.1[email].email == users[email].email
    ensures res.0 ==> res.1[email].username == users[email].username && res.1[email].phone == users[email].phone
    ensures forall e :: e in users && e != email ==> e in res.1 && res.1[e] == users[e]
    ensures KeyedByEmail(users) ==> KeyedByEmail(res.1)
  {
    if email !in users then (false, users)
    else (true, users[email := users[email].(role := role)])
  }

  /** Profile update: refused for an unknown address; otherwise a given name
      or phone replaces the stored one, an absent one leaves it. */
  function Update(users: map<string, User>, email: string, username: Option<string>, phone: Option<Int32>)
    : (res: (bool, map<string, User>))
    ensures res.0 <==> email in users
    ensures !res.0 ==> res.1 == users
    ensures res.1.Keys == users.Keys
    ensures forall e :: e in users && e != email ==> res.1[e] == users[e]
    ensures res.0 ==> res.1[email].email == users[email].email && res.1[email].role == users[email].role
    ensures res.0 ==> res.1[email].username == if username.Some? then username.value else users[email].username
    ensures res.0 ==> res.1[email].phone == if phone.Some? then phone.value else users[email].phone
    ensures KeyedByEmail(users) ==> KeyedByEmail(res.1)
  {
    if email !in users then (false, users)
    else
      var user := users[email];
      var user := if username.Some? then user.(username := username.value) else user;
      var user := if phone.Some? then user.(phone := phone.value) else user;
      (true, users[email := user])
  }

  /** An update that passes neither a name nor a phone changes nothing. */
  lemma EmptyUpdateChangesNothing(users: map<string, User>, email: string)
    ensures Update(users, email, None, None).1 == users
  {
  }

  /** A service over the user table as it currently stands in the database. */
  class UserService {
    var users: map<string, User>

    /** The table's key discipline: every row is stored under its own e-mail. */
    ghost predicate Valid()
      reads this
    {
      KeyedByEmail(users)
    }

    constructor (users: map<string, User>)
      ensures this.users == users
      ensures KeyedByEmail(users) ==> Valid()
    {
      this.users := users;
    }

    method GetOrCreateUser(email: string, username: Option<string>) returns (user: User)
      modifies this
      ensures (user, users) == GetOrCreate(old(users), email, username)
      ensures old(Valid()) ==> Valid() && user.email == email
    {
      if email in users {
        return users[email];
      }
      user := User.User(email, 0, username.GetOr(LocalPart(email)), UserRole.User);
      users := users[email := user];
    }

    /** The stored user for the address, if any. */
    function GetUserByEmail(email: string): (r: Option<User>)
      reads this
      ensures r.Some? <==> email in users
      ensures r.Some? ==> r.value == users[email]
    {
      if email in users then Some(users[email]) else None
    }

    method UpdateUserRole(email: string, role: UserRole) returns (ok: bool)
      modifies this
      ensures (ok, users) == UpdateRole(old(users), email, role)
      ensures ok ==> HasRole(email, role)
      ensures old(Valid()) ==> Valid()
    {
      if email !in users {
        return false;
      }
      users := users[email := users[email].(role := role)];
      return true;
    }

    method UpdateUser(email: string, username: Option<string>, phone: Option<Int32>) returns (ok: bool)
      modifies this
      ensures (ok, users) == Update(old(users), email, username, phone)
      ensures old(Valid()) ==> Valid()
    {
      if email !in users {
        return false;
      }
      var user := users[email];
      if username.Some? {
        user := user.(username := username.value);
      }
      if phone.Some? {
        user := user.(phone := phone.value);
      }
      users := users[email := user];
      return true;
    }

    /** Whether the address belongs to a user with the given role; false for
        an unknown address. */
    predicate HasRole(email: string, role: UserRole): (b: bool)
      reads this
      ensures b <==> GetUserByEmail(email).Some? && GetUserByEmail(email).value.role == role
    {
      email in users && users[email].role == role
    }
  }
}

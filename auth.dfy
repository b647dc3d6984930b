/**
 * The user table behind registration and login. Password hashing, password
 * comparison and token signing are opaque: the service is built over
 * arbitrary functions for them.
 */
module Auth {
  import opened Wrappers
  import opened Records

  /** One row of the user table; `password` holds the hash. */
  datatype User = User(id: nat, email: string, password: string, createdAt: Timestamp, updatedAt: Timestamp)

  /** A registration request. The confirmation field is optional. */
  datatype CreateAuth = CreateAuth(email: string, password: string, confirmPassword: Option<string>)

  /** A login request. */
  datatype LoginAuth = LoginAuth(email: string, password: string)

  /** What a successful login returns. */
  datatype Session = Session(token: string)

  /** The failures of the user service. */
  datatype AuthError = Unprocessable | Conflict | Unauthorized

  /** The filter of the unique lookup by email. */
  function WithEmail(email: string): User -> bool {
    (u: User) => u.email == email
  }

  /** No two users share an email (the email column is unique). */
  ghost predicate EmailsUnique(users: seq<User>) {
    forall i, j :: 0 <= i < j < |users| ==> users[i].email != users[j].email
  }

  class AuthService {
    /** The password hash (a bcrypt hash with ten salt rounds). */
    const hash: string -> string
    /** Whether a plain password matches a stored hash. */
    const compare: (string, string) -> bool
    /** Signs a token carrying a user id. */
    const sign: nat -> string
    /** The user table, in insertion order. */
    var users: seq<User>
    /** The id the store assigns to the next user. */
    var nextId: nat

    ghost predicate Valid()
      reads this
    {
      && EmailsUnique(users)
      && (forall i :: 0 <= i < |users| ==> users[i].id < nextId)
      && (forall i, j :: 0 <= i < j < |users| ==> users[i].id != users[j].id)
    }

    constructor (hash: string -> string, compare: (string, string) -> bool, sign: nat -> string)
      ensures Valid()
      ensures this.hash == hash && this.compare == compare && this.sign == sign
      ensures users == [] && nextId == 0
    {
      this.hash := hash;
      this.compare := compare;
      this.sign := sign;
      users := [];
      nextId := 0;
    }

    /** The user registered under `email`, if any. */
    function FindOneWithEmail(email: string): (r: Option<User>)
      reads this
      ensures r.Some? ==> r.value in users && r.value.email == email
      ensures r.None? <==> forall i :: 0 <= i < |users| ==> users[i].email != email
      ensures EmailsUnique(users) ==>
        forall i :: 0 <= i < |users| && users[i].email == email ==> r == Some(users[i])
    {
      var found := FindFirst(users, WithEmail(email));
      if found.Some? then Some(users[found.value]) else None
    }

    /** Every user, in table order. */
    function FindAll(): (r: seq<User>)
      reads this
      ensures r == users
    {
      users
    }

    /** Creates a user when the confirmation matches the password and the
        email is free; the stored password is the hash of the given one. */
    method Register(dto: CreateAuth, now: Timestamp) returns (r: Result<User, AuthError>)
      requires Valid()
      modifies this
      ensures Valid()
      ensures dto.confirmPassword != Some(dto.password) ==> r == Err(Unprocessable)
      ensures dto.confirmPassword == Some(dto.password) &&
              (exists i :: 0 <= i < |old(users)| && old(users)[i].email == dto.email) ==>
                r == Err(Conflict)
      ensures r.Err? ==> users == old(users) && nextId == old(nextId)
      ensures r.Ok? <==> dto.confirmPassword == Some(dto.password) &&
                         forall i :: 0 <= i < |old(users)| ==> old(users)[i].email != dto.email
      ensures r.Ok? ==>
        && r.value == User(old(nextId), dto.email, hash(dto.password), now, now)
        && users == old(users) + [r.value]
        && nextId == old(nextId) + 1
    {
      if dto.confirmPassword != Some(dto.password) {
        return Err(Unprocessable);
      }
      var existing := FindOneWithEmail(dto.email);
      if existing.Some? {
        return Err(Conflict);
      }
      var user := User(nextId, dto.email, hash(dto.password), now, now);
      users := users + [user];
      nextId := nextId + 1;
      r := Ok(user);
    }

    /** Checks the credentials and returns a token signed over the user's id;
        an unknown email and a wrong password fail alike, with Unauthorized. */
    function Login(dto: LoginAuth): (r: Result<Session, AuthError>)
      reads this
      ensures r.Err? ==> r.error == Unauthorized
      ensures r.Ok? ==> exists u :: u in users && u.email == dto.email &&
                                   compare(dto.password, u.password) && r.value.token == sign(u.id)
      ensures EmailsUnique(users) ==>
        (r.Ok? <==> exists i :: 0 <= i < |users| && users[i].email == dto.email &&
                                compare(dto.password, users[i].password))
    {
      match FindOneWithEmail(dto.email)
      case None => Err(Unauthorized)
      case Some(user) =>
        if compare(dto.password, user.password) then Ok(Session(sign(user.id)))
        else Err(Unauthorized)
    }
  }

  /** A new user can log in at once, provided the hash and the comparison
      agree (every password matches its own hash). */
  method RegisterThenLogin(s: AuthService, email: string, password: string, now: Timestamp)
    returns (user: Result<User, AuthError>, session: Result<Session, AuthError>)
    requires s.Valid()
    requires forall i :: 0 <= i < |s.users| ==> s.users[i].email != email
    requires forall p :: s.compare(p, s.hash(p))
    modifies s
    ensures s.Valid()
    ensures user.Ok? && user.value.email == email
    ensures session == Ok(Session(s.sign(user.value.id)))
  {
    user := s.Register(CreateAuth(email, password, Some(password)), now);
    var last := |s.users| - 1;
    assert s.users[last] == user.value;
    assert s.FindOneWithEmail(email) == Some(user.value);
    assert s.compare(password, s.hash(password));
    session := s.Login(LoginAuth(email, password));
  }
}

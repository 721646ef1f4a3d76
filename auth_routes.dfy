/** The account router (backend/routes/auth.js): `/signup` validation and insert,
    `/login` lookup with one failure for every bad credential, and `/me` with the
    token taken from the Authorization header. Users are held by `UserStore` in
    insertion order, the id of a user being its position.

    bcrypt and JSON Web Tokens are parameters of the handlers: `hash` stands for
    `bcrypt.hash(password, 10)`, `compare` for `bcrypt.compare`, `sign` for
    `jwt.sign({ userId }, secret, { expiresIn: '7d' })` and `verify` for `jwt.verify`
    followed by reading `userId` (`None` when verification throws).
    backend/models/User.js is not part of this model; a user is taken to store the
    username, email and password it is given. */
module AuthRoutes {
  import opened Wrappers
  import opened Text
  import opened Http
  import opened Queries

  datatype User = User(id: nat, username: string, email: string, password: string)

  /** A user as the routes send it back: no password. */
  datatype PublicUser = PublicUser(id: nat, username: string, email: string)

  /** The JSON body of a successful signup or login. */
  datatype Session = Session(message: string, token: string, user: PublicUser)

  datatype SignupBody = SignupBody(username: Option<string>, email: Option<string>, password: Option<string>)

  datatype LoginBody = LoginBody(email: Option<string>, password: Option<string>)

  function Public(u: User): (p: PublicUser)
    ensures p.id == u.id && p.username == u.username && p.email == u.email
  {
    PublicUser(u.id, u.username, u.email)
  }

  const FieldsRequired := "All fields are required"
  const PasswordTooShort := "Password must be at least 6 characters"
  const UserExists := "User already exists with this email or username"
  const CredentialsRequired := "Email and password are required"
  const InvalidCredentials := "Invalid email or password"
  const NoToken := "No token provided"
  const InvalidToken := "Invalid token"
  const UserNotFound := "User not found"

  /** The shortest password signup accepts. */
  const MinPasswordLength := 6

  /** No two users share an email, and no two share a username. */
  ghost predicate Unique(users: seq<User>) {
    forall i, j :: 0 <= i < j < |users| ==> users[i].email != users[j].email && users[i].username != users[j].username
  }

  /** `User.findOne({ $or: [{ email }, { username }] })` finds something. */
  predicate Taken(users: seq<User>, email: string, username: string) {
    exists i :: 0 <= i < |users| && (users[i].email == email || users[i].username == username)
  }

  /** Appending a user whose email and username are both free keeps every email and
      every username unique. */
  lemma AppendKeepsUnique(users: seq<User>, u: User)
    requires Unique(users) && !Taken(users, u.email, u.username)
    ensures Unique(users + [u])
  {
  }

  /** `User.findOne({ email })`: the position of the first user with this email. */
  function FindByEmail(users: seq<User>, email: string): (r: Option<nat>)
    ensures r.Some? ==> r.value < |users| && users[r.value].email == email
    ensures r.Some? ==> forall j :: 0 <= j < r.value ==> users[j].email != email
    ensures r.None? ==> forall j :: 0 <= j < |users| ==> users[j].email != email
  {
    if users == [] then None
    else if users[0].email == email then Some(0)
    else
      var r := FindByEmail(users[1..], email);
      if r.Some? then Some(r.value + 1) else None
  }

  /** With unique emails the user found is the only one with that email. */
  lemma FoundIsOnly(users: seq<User>, email: string, i: nat)
    requires Unique(users) && i < |users| && users[i].email == email
    ensures FindByEmail(users, email) == Some(i)
  {
  }

  /** `req.headers.authorization?.split(' ')[1]`: the second space-separated word of the
      header, `None` standing for `undefined` (no header, or no space in it). */
  function ExtractToken(header: Option<string>): (r: Option<string>)
    ensures header.None? ==> r.None?
    ensures header.Some? ==> (r.Some? <==> ' ' in header.value)
  {
    if header.None? then None
    else
      var words := Split(header.value, ' ');
      SplitCountsSeparator(header.value, ' ');
      if |words| >= 2 then Some(words[1]) else None
  }

  /** The bearer form of section 2.1 of RFC 6750, "Bearer <token>", yields the token;
      so does any other first word, since the scheme is never compared. */
  lemma {:induction false} TokenAfterAnyScheme(scheme: string, token: string, rest: string)
    requires ' ' !in scheme && ' ' !in token
    ensures ExtractToken(Some(scheme + " " + token)) == Some(token)
    ensures ExtractToken(Some(scheme + " " + token + " " + rest)) == Some(token)
  {
    SplitAfterPiece(scheme, ' ', token);
    SplitWithoutSeparator(token, ' ');
    assert scheme + " " + token == scheme + [' '] + token;
    SplitAfterPiece(scheme, ' ', token + " " + rest);
    SplitAfterPiece(token, ' ', rest);
    assert scheme + " " + token + " " + rest == scheme + [' '] + (token + [' '] + rest);
  }

  class UserStore {
    var users: seq<User>

    ghost predicate Valid()
      reads this
    {
      (forall i :: 0 <= i < |users| ==> users[i].id == i) && Unique(users)
    }

    constructor ()
      ensures Valid() && users == []
    {
      users := [];
    }

    /** `POST /signup`: the checks in order (fields present, password length, email
        or username free), then the insert of the user with the hashed password. */
    method Signup(body: SignupBody, hash: string -> string, sign: nat -> string) returns (res: Response<Session>)
      requires Valid()
      modifies this
      ensures Valid()
      ensures !Truthy(body.username) || !Truthy(body.email) || !Truthy(body.password) ==>
                res == Error(400, FieldsRequired) && users == old(users)
      ensures Truthy(body.username) && Truthy(body.email) && Truthy(body.password) ==>
                && (|body.password.value| < MinPasswordLength ==>
                      res == Error(400, PasswordTooShort) && users == old(users))
                && (|body.password.value| >= MinPasswordLength && Taken(old(users), body.email.value, body.username.value) ==>
                      res == Error(400, UserExists) && users == old(users))
                && (|body.password.value| >= MinPasswordLength && !Taken(old(users), body.email.value, body.username.value) ==>
                      var u := User(|old(users)|, body.username.value, body.email.value, hash(body.password.value));
                      users == old(users) + [u] && res == Reply(201, Session("User created successfully", sign(u.id), Public(u))))
    {
      if !Truthy(body.username) || !Truthy(body.email) || !Truthy(body.password) {
        return Error(400, FieldsRequired);
      }
      var username, email, password := body.username.value, body.email.value, body.password.value;
      if |password| < MinPasswordLength {
        return Error(400, PasswordTooShort);
      }
      if Taken(users, email, username) {
        return Error(400, UserExists);
      }
      var u := User(|users|, username, email, hash(password));
      AppendKeepsUnique(users, u);
      users := users + [u];
      res := Reply(201, Session("User created successfully", sign(u.id), Public(u)));
    }

    /** `POST /login`: read-only; an unknown email and a wrong password fail alike. */
    function Login(body: LoginBody, compare: (string, string) -> bool, sign: nat -> string): (r: Response<Session>)
      reads this
      ensures !Truthy(body.email) || !Truthy(body.password) ==> r == Error(400, CredentialsRequired)
      ensures r.Reply? <==>
                Truthy(body.email) && Truthy(body.password)
                && exists i :: 0 <= i < |users| && users[i].email == body.email.value
                               && FindByEmail(users, body.email.value) == Some(i)
                               && compare(body.password.value, users[i].password)
      ensures r.Reply? ==> exists i :: 0 <= i < |users| && users[i].email == body.email.value
                                     && r == Reply(200, Session("Login successful", sign(users[i].id), Public(users[i])))
      ensures r.Error? && Truthy(body.email) && Truthy(body.password) ==> r == Error(401, InvalidCredentials)
    {
      if !Truthy(body.email) || !Truthy(body.password) then Error(400, CredentialsRequired)
      else
        var found := FindByEmail(users, body.email.value);
        if found.None? then Error(401, InvalidCredentials)
        else
          var u := users[found.value];
          if !compare(body.password.value, u.password) then Error(401, InvalidCredentials)
          else Reply(200, Session("Login successful", sign(u.id), Public(u)))
    }

    /** `GET /me`: the token from the header, its verification, then the user by id
        without the password. */
    function Me(authorization: Option<string>, verify: string -> Option<nat>): (r: Response<PublicUser>)
      reads this
      ensures !Truthy(ExtractToken(authorization)) ==> r == Error(401, NoToken)
      ensures Truthy(ExtractToken(authorization)) && verify(ExtractToken(authorization).value).None? ==>
                r == Error(401, InvalidToken)
      ensures Truthy(ExtractToken(authorization)) && verify(ExtractToken(authorization).value).Some? ==>
                var id := verify(ExtractToken(authorization).value).value;
                (id < |users| ==> r == Reply(200, Public(users[id]))) && (id >= |users| ==> r == Error(404, UserNotFound))
    {
      var token := ExtractToken(authorization);
      if !Truthy(token) then Error(401, NoToken)
      else
        var decoded := verify(token.value);
        if decoded.None? then Error(401, InvalidToken)
        else if decoded.value < |users| then Reply(200, Public(users[decoded.value]))
        else Error(404, UserNotFound)
    }
  }

  /** Login succeeds for the password signup stored, whenever `compare` accepts a
      password against its own hash, and answers with the user signup created. */
  method SignupThenLogin(store: UserStore, body: SignupBody, hash: string -> string,
                         compare: (string, string) -> bool, sign: nat -> string) returns (signup: Response<Session>, login: Response<Session>)
    requires store.Valid()
    requires forall p :: compare(p, hash(p))
    modifies store
    ensures signup.Reply? ==> login.Reply? && login.body.user == signup.body.user
  {
    signup := store.Signup(body, hash, sign);
    login := store.Login(LoginBody(body.email, body.password), compare, sign);
    if signup.Reply? {
      FoundIsOnly(store.users, body.email.value, |store.users| - 1);
    }
  }
}

/** The account handlers: signup, login, logout, profile-picture update, the
    authentication probe and the all-users listing. Password hashing and media
    upload come in as the collaborator parameters `h`, `salt`, `env` and
    `upload`; `me` is the id of the authenticated requester. */
module AuthController {
  import opened Common
  import opened Seqs
  import opened Crypto
  import opened Models
  import opened Http
  import opened Store
  import opened Cloud
  import MessageController

  const MinPasswordLength := 6

  const AllFieldsRequired := "All fields are required"
  const PasswordTooShort := "Password must be at least 6 characters long"
  const EmailExists := "email already exists"
  const UserCreated := "User created successfully"
  const InvalidCredentials := "Invalid credentials"
  const LoggedIn := "User logged in successfully"
  const LoggedOut := "User logged out successfully"
  const ProfilePicRequired := "Profile picture is required"
  const NotAuthenticated := "Unauthorized"

  datatype SignupBody = SignupBody(email: Field, password: Field, fullName: Field)
  datatype LoginBody = LoginBody(email: Field, password: Field)
  datatype ProfileBody = ProfileBody(profilePic: Field)

  /** Some stored user already has this email. */
  predicate EmailTaken(users: seq<User>, email: string)
  {
    FindUserByEmail(users, email).Some?
  }

  /** The user a successful signup stores. */
  function NewUser(db: Db, body: SignupBody, h: Hasher, salt: nat): User
    requires body.email.Some? && body.password.Some? && body.fullName.Some?
  {
    User(db.nextId, body.email.value, body.fullName.value,
         Hash(h, body.password.value, salt), DefaultProfilePic)
  }

  /** Validation in order (all fields, password length, unused email), each
      failure a 400 that changes nothing; success stores one new user with the
      hashed password, answers 201 with its password-free view and issues a
      session token for it. */
  function Signup(db: Db, body: SignupBody, h: Hasher, salt: nat): (o: Outcome)
    ensures !(Truthy(body.email) && Truthy(body.password) && Truthy(body.fullName)) ==>
              o == Outcome(Json(400, Notice(AllFieldsRequired)), db)
    ensures Truthy(body.email) && Truthy(body.password) && Truthy(body.fullName)
            && |body.password.value| < MinPasswordLength ==>
              o == Outcome(Json(400, Notice(PasswordTooShort)), db)
    ensures Truthy(body.email) && Truthy(body.password) && Truthy(body.fullName)
            && |body.password.value| >= MinPasswordLength
            && (exists u :: u in db.users && u.email == body.email.value) ==>
              o == Outcome(Json(400, Notice(EmailExists)), db)
    ensures o.response.status == 201 <==>
              && Truthy(body.email) && Truthy(body.password) && Truthy(body.fullName)
              && |body.password.value| >= MinPasswordLength
              && (forall u :: u in db.users ==> u.email != body.email.value)
    ensures o.response.status in {201, 400}
    ensures o.response.status == 201 ==>
              && o.db.messages == db.messages
              && o.db.nextId == db.nextId + 1
              && |o.db.users| == |db.users| + 1
              && o.db.users[..|db.users|] == db.users
              && var u := o.db.users[|db.users|];
              && u.id == db.nextId
              && u.email == body.email.value && u.fullName == body.fullName.value
              && u.profilePic == DefaultProfilePic
              && u.password == Hash(h, body.password.value, salt)
              && o.response == Response(201, NoticeWithUser(UserCreated, View(u)), IssueToken(u.id))
  {
    if !(Truthy(body.email) && Truthy(body.password) && Truthy(body.fullName)) then
      Outcome(Json(400, Notice(AllFieldsRequired)), db)
    else if |body.password.value| < MinPasswordLength then
      Outcome(Json(400, Notice(PasswordTooShort)), db)
    else if EmailTaken(db.users, body.email.value) then
      Outcome(Json(400, Notice(EmailExists)), db)
    else
      var u := NewUser(db, body, h, salt);
      Outcome(Response(201, NoticeWithUser(UserCreated, View(u)), IssueToken(u.id)),
              db.(users := db.users + [u], nextId := db.nextId + 1))
  }

  /** Signing up keeps ids and emails unique and ids below `nextId`. */
  lemma SignupPreservesValid(db: Db, body: SignupBody, h: Hasher, salt: nat)
    requires Valid(db)
    ensures Valid(Signup(db, body, h, salt).db)
  {
  }

  /** The one response both credential failures produce. */
  function RejectCredentials(): Response
  {
    Json(400, Notice(InvalidCredentials))
  }

  /** Login never changes the store. Missing fields give 400; an unknown email
      and a wrong password both give the same `Invalid credentials` 400; the
      matching password answers 200 with the user's view and issues a token. */
  function Login(db: Db, body: LoginBody, h: Hasher): (o: Outcome)
    ensures o.db == db
    ensures !(Truthy(body.email) && Truthy(body.password)) ==>
              o.response == Json(400, Notice(AllFieldsRequired))
    ensures Truthy(body.email) && Truthy(body.password)
            && (forall u :: u in db.users ==> u.email != body.email.value) ==>
              o.response == RejectCredentials()
    ensures o.response.status in {200, 400}
    ensures o.response.status == 200 <==>
              && Truthy(body.email) && Truthy(body.password)
              && exists u :: FindUserByEmail(db.users, body.email.value) == Some(u)
                             && Compare(h, body.password.value, u.password)
    ensures o.response.status == 200 ==>
              var u := FindUserByEmail(db.users, body.email.value).value;
              o.response == Response(200, NoticeWithUser(LoggedIn, View(u)), IssueToken(u.id))
    ensures o.response.status != 200 && Truthy(body.email) && Truthy(body.password) ==>
              o.response == RejectCredentials()
  {
    if !(Truthy(body.email) && Truthy(body.password)) then
      Outcome(Json(400, Notice(AllFieldsRequired)), db)
    else
      match FindUserByEmail(db.users, body.email.value)
      case None => Outcome(RejectCredentials(), db)
      case Some(u) =>
        if !Compare(h, body.password.value, u.password) then Outcome(RejectCredentials(), db)
        else Outcome(Response(200, NoticeWithUser(LoggedIn, View(u)), IssueToken(u.id)), db)
  }

  /** In a valid store, a registered email with its password logs that user in. */
  lemma LoginRegistered(db: Db, k: nat, password: string, h: Hasher)
    requires Valid(db) && k < |db.users|
    requires db.users[k].email != "" && password != ""
    requires Compare(h, password, db.users[k].password)
    ensures Login(db, LoginBody(Some(db.users[k].email), Some(password)), h).response
         == Response(200, NoticeWithUser(LoggedIn, View(db.users[k])), IssueToken(db.users[k].id))
  {
  }

  /** A user who has just signed up can log in with the same email and password. */
  lemma SignupThenLogin(db: Db, body: SignupBody, h: Hasher, salt: nat)
    requires Signup(db, body, h, salt).response.status == 201
    ensures var o := Signup(db, body, h, salt);
            var u := NewUser(db, body, h, salt);
            Login(o.db, LoginBody(body.email, body.password), h).response
              == Response(200, NoticeWithUser(LoggedIn, View(u)), IssueToken(u.id))
  {
  }

  /** Clears the session cookie; nothing else. */
  function Logout(db: Db): (o: Outcome)
    ensures o.db == db
    ensures o.response == Response(200, Notice(LoggedOut), ClearToken)
  {
    Outcome(Response(200, Notice(LoggedOut), ClearToken), db)
  }

  /** Without a picture: 400, nothing changes. Otherwise only the requester's
      `profilePic` changes, to the uploaded URL or to the raw value when the
      upload is unconfigured or fails, and the updated user is returned without
      password; a requester no longer in the store gets 200 with `null`. */
  function UpdateProfile(db: Db, me: Id, body: ProfileBody, env: Env, upload: Uploader): (o: Outcome)
    ensures !Truthy(body.profilePic) ==> o == Outcome(Json(400, Notice(ProfilePicRequired)), db)
    ensures Truthy(body.profilePic) ==> o.response.status == 200
    ensures Truthy(body.profilePic) && (forall u :: u in db.users ==> u.id != me) ==>
              o == Outcome(Json(200, Null), db)
    ensures o.db.messages == db.messages && o.db.nextId == db.nextId
    ensures |o.db.users| == |db.users|
    ensures forall j :: 0 <= j < |db.users| && db.users[j].id != me ==> o.db.users[j] == db.users[j]
    ensures forall j :: 0 <= j < |db.users| ==>
              o.db.users[j] == db.users[j].(profilePic := o.db.users[j].profilePic)
    ensures Truthy(body.profilePic) && FindUserIndex(db.users, me).Some? ==>
              var k := FindUserIndex(db.users, me).value;
              var pic := body.profilePic.value;
              && o.db.users[k].profilePic == UploadOrRaw(pic, env, upload)
              && (Configured(env) && upload(pic).Uploaded? ==> o.db.users[k].profilePic == upload(pic).secureUrl)
              && (!Configured(env) || upload(pic).UploadError? ==> o.db.users[k].profilePic == pic)
              && o.response == Json(200, OneUser(View(o.db.users[k])))
  {
    if !Truthy(body.profilePic) then
      Outcome(Json(400, Notice(ProfilePicRequired)), db)
    else
      var url := UploadOrRaw(body.profilePic.value, env, upload);
      match FindUserIndex(db.users, me)
      case None => Outcome(Json(200, Null), db)
      case Some(k) =>
        var updated := db.users[k].(profilePic := url);
        Outcome(Json(200, OneUser(View(updated))), db.(users := db.users[k := updated]))
  }

  /** Updating a profile picture keeps ids and emails unique. */
  lemma UpdateProfilePreservesValid(db: Db, me: Id, body: ProfileBody, env: Env, upload: Uploader)
    requires Valid(db)
    ensures Valid(UpdateProfile(db, me, body, env, upload).db)
  {
  }

  /** 401 exactly when no user is authenticated; otherwise 200 with that user. */
  function CheckAuth(authenticated: Option<UserView>): (r: Response)
    ensures r.status == 401 <==> authenticated.None?
    ensures authenticated.None? ==> r == Json(401, Notice(NotAuthenticated))
    ensures authenticated.Some? ==> r == Json(200, OneUser(authenticated.value))
  {
    match authenticated
    case None => Json(401, Notice(NotAuthenticated))
    case Some(u) => Json(200, OneUser(u))
  }

  /** Every user except the requester, passwords stripped. */
  function GetAllUsers(db: Db, me: Id): (o: Outcome)
    ensures o.db == db
    ensures o.response.status == 200 && o.response.body.UserList?
    ensures forall u :: u in db.users && u.id != me ==> View(u) in o.response.body.users
    ensures forall v :: v in o.response.body.users ==>
              v.id != me && exists u :: u in db.users && View(u) == v
    ensures o.response.body.users == OtherUsers(db.users, me)
  {
    Outcome(Json(200, UserList(OtherUsers(db.users, me))), db)
  }

  /** The account listing and the sidebar listing answer identically. */
  lemma GetAllUsersMatchesSidebar(db: Db, me: Id)
    ensures GetAllUsers(db, me) == MessageController.GetUsersForSidebar(db, me)
  {
  }
}

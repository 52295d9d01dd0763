/** Server-side account creation and the login page gate. */
module AuthController {
  import opened Outcomes
  import opened Metadata
  import Text

  /** How a registration attempt ends; every failure sends the visitor back to the
      registration page with a message. */
  datatype RegisterOutcome = MissingFields | PasswordTooShort | EmailInUse | Registered(id: int)

  /** A form field counts as given unless it is absent or the empty string. */
  predicate Given(field: Option<string>) {
    field.Some? && field.value != ""
  }

  /** `register`: checks, in order, that email and password are given, that the password
      has at least 8 UTF-16 code units and that the email is not registered yet; only then
      is one user added, holding `hash(password)` (bcrypt, cost 12) and never checked for
      character classes. */
  method Register(db: MetadataStore, email: Option<string>, password: Option<string>, name: Option<string>,
                  hash: string -> string)
    returns (outcome: RegisterOutcome)
    requires db.Valid()
    modifies db
    ensures db.Valid()
    ensures outcome == (
      if !Given(email) || !Given(password) then MissingFields
      else if Text.JsLength(password.value) < 8 then PasswordTooShort
      else if EmailTaken(old(db.users), email.value) then EmailInUse
      else Registered(old(db.nextUserId)))
    ensures !outcome.Registered? ==> unchanged(db)
    ensures outcome.Registered? ==>
      && outcome.id !in old(db.users)
      && db.users == old(db.users)[outcome.id := User(email.value, hash(password.value), name)]
      && db.nextUserId == outcome.id + 1
      && db.folders == old(db.folders) && db.files == old(db.files) && db.shares == old(db.shares)
      && db.nextFolderId == old(db.nextFolderId) && db.nextFileId == old(db.nextFileId)
  {
    if !Given(email) || !Given(password) {
      return MissingFields;
    }
    if Text.JsLength(password.value) < 8 {
      return PasswordTooShort;
    }
    if EmailTaken(db.users, email.value) {
      return EmailInUse;
    }
    var id := db.nextUserId;
    db.users := db.users[id := User(email.value, hash(password.value), name)];
    db.nextUserId := id + 1;
    outcome := Registered(id);
  }

  /** Registering one email twice: the first attempt creates the account, the second is
      refused whatever password it brings, and the users table keeps only the first. */
  method RegisterTwice(db: MetadataStore, email: string, first: string, second: string, hash: string -> string)
    returns (o1: RegisterOutcome, o2: RegisterOutcome)
    requires db.Valid()
    requires email != "" && Text.JsLength(first) >= 8 && Text.JsLength(second) >= 8
    requires !EmailTaken(db.users, email)
    modifies db
    ensures db.Valid()
    ensures o1.Registered? && o2 == EmailInUse
    ensures db.users == old(db.users)[o1.id := User(email, hash(first), None)]
  {
    o1 := Register(db, Some(email), Some(first), None, hash);
    assert db.users[o1.id].email == email;
    o2 := Register(db, Some(email), Some(second), None, hash);
  }

  datatype LoginPage = RedirectToDashboard | RenderLogin

  /** `showLogin`: a visitor who is already signed in goes to the dashboard. */
  function ShowLogin(authenticated: bool): (page: LoginPage)
    ensures page == RedirectToDashboard <==> authenticated
  {
    if authenticated then RedirectToDashboard else RenderLogin
  }
}

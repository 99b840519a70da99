/** The store's landing page: registration and sign-in over the user records it keeps in
    local storage, the download that records a trial, and the launch-time trial gate.
    Local storage is the `Store` object's fields; clock readings are parameters. */
module Landing {
  import opened Text
  import opened Trial

  /** A stored user record (`registeredAt` as milliseconds). */
  datatype User = User(name: string, password: string, registeredAt: int)

  /** The signed-in session (`signedInAt` as milliseconds). */
  datatype Session = Session(email: string, name: string, signedInAt: int)

  const MinPasswordLength := 6
  const MsPerHour := 60 * 60 * 1000

  /** The outcomes of `handleRegister`, each with the message the form shows. */
  datatype RegisterOutcome = MissingFields | PasswordTooShort | AlreadyExists | RegisterOk

  function RegisterMessage(o: RegisterOutcome): string {
    match o
    case MissingFields => "Please fill in all fields"
    case PasswordTooShort => "Password must be at least 6 characters"
    case AlreadyExists => "User already exists. Please sign in."
    case RegisterOk => "Registration successful! Please sign in."
  }

  /** The decision of `handleRegister`, in the order it checks. */
  function RegisterCheck(users: map<string, User>, name: string, email: string, password: string): (r: RegisterOutcome)
    ensures r == RegisterOk <==>
              name != [] && email != [] && |password| >= MinPasswordLength && email !in users
    ensures r == MissingFields <==> name == [] || email == [] || password == []
    ensures r == PasswordTooShort <==>
              name != [] && email != [] && password != [] && |password| < MinPasswordLength
    ensures r == AlreadyExists <==>
              name != [] && email != [] && |password| >= MinPasswordLength && email in users
  {
    if name == [] || email == [] || password == [] then MissingFields
    else if |password| < MinPasswordLength then PasswordTooShort
    else if email in users then AlreadyExists
    else RegisterOk
  }

  /** The outcomes of `handleSignIn`. */
  datatype SignInOutcome = MissingCredentials | InvalidCredentials | SignedIn

  function SignInMessage(o: SignInOutcome): string {
    match o
    case MissingCredentials => "Please enter both email and password"
    case InvalidCredentials => "Invalid email or password"
    case SignedIn => "Signed in successfully!"
  }

  /** The decision of `handleSignIn`. */
  function SignInCheck(users: map<string, User>, email: string, password: string): (r: SignInOutcome)
    ensures r == SignedIn <==>
              email != [] && password != [] && email in users && users[email].password == password
    ensures r == MissingCredentials <==> email == [] || password == []
  {
    if email == [] || password == [] then MissingCredentials
    else if email in users && users[email].password == password then SignedIn
    else InvalidCredentials
  }

  /** The record `initiateDownload` writes at time `now` for the signed-in `email`. */
  function NewInstall(now: int, email: string): (r: InstallData)
    ensures r.trialExpiresAt == r.installedAt + TrialDurationHours * 3600000
    ensures r.installedAt == now && r.installedBy == email && !r.paid
  {
    InstallData(now, email, now + TrialDurationHours * MsPerHour, false)
  }

  /** `enforceTrialRestriction`, the launch-time gate. */
  function EnforceTrialRestriction(install: Option<InstallData>, now: int): (r: bool)
    ensures r <==> install.None? || install.value.paid || now < install.value.trialExpiresAt
  {
    match install
    case None => true
    case Some(d) => if d.paid then true else now < d.trialExpiresAt
  }

  /** The launch-time gate and the enforcer's check agree on every record and time. */
  lemma GatesAgree(install: Option<InstallData>, now: int)
    ensures EnforceTrialRestriction(install, now) == CheckTrialStatus(install, now).canAccess
  {}

  /** A fresh install is usable for exactly one hour after the download; it reports 60
      minutes left only at the moment of the download, and fewer afterwards. */
  lemma FreshTrialLastsAnHour(t: int, email: string, now: int)
    ensures EnforceTrialRestriction(Some(NewInstall(t, email)), now) <==> now < t + 3600000
    ensures t <= now < t + 3600000 ==>
              var left := RemainingTrialTime(Some(NewInstall(t, email)), now).value;
              left <= 60 && (left == 60 <==> now == t)
  {
    if t <= now < t + 3600000 {
      var remaining := t + 3600000 - now;
      assert RemainingTrialTime(Some(NewInstall(t, email)), now) == Some(remaining / MsPerMinute);
      assert remaining / MsPerMinute <= 60;
      if now != t {
        assert remaining < 60 * MsPerMinute;
      }
    }
  }

  /** What `handleDownload` and `checkTrialAndAccess` do. */
  datatype DownloadOutcome = SignInFirst | FullAccess | TrialActive(minutes: int) | PaymentPrompt | Downloaded

  /** The decision of `checkTrialAndAccess` for an existing install. */
  function TrialAndAccess(d: InstallData, now: int): (r: DownloadOutcome)
    ensures r.FullAccess? <==> d.paid
    ensures r.TrialActive? <==> !d.paid && now < d.trialExpiresAt
    ensures r.TrialActive? ==> Some(r.minutes) == RemainingTrialTime(Some(d), now)
    ensures r.PaymentPrompt? <==> !d.paid && d.trialExpiresAt <= now
  {
    if d.paid then FullAccess
    else if now < d.trialExpiresAt then TrialActive(WholeMinutes(d.trialExpiresAt - now))
    else PaymentPrompt
  }

  /** The page's local storage: the user records, the session and the install record. */
  class Store {
    var users: map<string, User>
    var currentUser: Option<Session>
    var install: Option<InstallData>

    constructor(users: map<string, User>)
      ensures this.users == users && currentUser == None && install == None
    {
      this.users := users;
      currentUser := None;
      install := None;
    }

    /** `handleRegister`: a new record is added only on success. */
    method HandleRegister(name: string, email: string, password: string, now: int)
      returns (outcome: RegisterOutcome, message: string)
      modifies this
      ensures outcome == RegisterCheck(old(users), name, email, password)
      ensures message == RegisterMessage(outcome)
      ensures outcome == RegisterOk ==> users == old(users)[email := User(name, password, now)]
      ensures outcome != RegisterOk ==> users == old(users)
      ensures currentUser == old(currentUser) && install == old(install)
    {
      if name == [] || email == [] || password == [] {
        return MissingFields, RegisterMessage(MissingFields);
      }
      if |password| < MinPasswordLength {
        return PasswordTooShort, RegisterMessage(PasswordTooShort);
      }
      if email in users {
        return AlreadyExists, RegisterMessage(AlreadyExists);
      }
      users := users[email := User(name, password, now)];
      return RegisterOk, RegisterMessage(RegisterOk);
    }

    /** `handleSignIn`: a session is stored only on success. */
    method HandleSignIn(email: string, password: string, now: int)
      returns (outcome: SignInOutcome, message: string)
      modifies this
      ensures outcome == SignInCheck(old(users), email, password)
      ensures message == SignInMessage(outcome)
      ensures outcome == SignedIn ==>
                email in users && currentUser == Some(Session(email, users[email].name, now))
      ensures outcome != SignedIn ==> currentUser == old(currentUser)
      ensures users == old(users) && install == old(install)
    {
      if email == [] || password == [] {
        return MissingCredentials, SignInMessage(MissingCredentials);
      }
      if email in users && users[email].password == password {
        currentUser := Some(Session(email, users[email].name, now));
        return SignedIn, SignInMessage(SignedIn);
      }
      return InvalidCredentials, SignInMessage(InvalidCredentials);
    }

    /** `initiateDownload`; the source reads the session's email without checking for one. */
    method InitiateDownload(now: int)
      requires currentUser.Some?
      modifies this
      ensures users == old(users) && currentUser == old(currentUser)
      ensures install == Some(NewInstall(now, currentUser.value.email))
    {
      install := Some(NewInstall(now, currentUser.value.email));
    }

    /** `handleDownload`: sign in first, check an existing install, or record a new one. */
    method HandleDownload(now: int) returns (outcome: DownloadOutcome)
      modifies this
      ensures old(currentUser).None? ==> outcome == SignInFirst && install == old(install)
      ensures old(currentUser).Some? && old(install).Some? ==>
                outcome == TrialAndAccess(old(install).value, now) && install == old(install)
      ensures old(currentUser).Some? && old(install).None? ==>
                outcome == Downloaded && install == Some(NewInstall(now, old(currentUser).value.email))
      ensures users == old(users) && currentUser == old(currentUser)
    {
      if currentUser.None? {
        return SignInFirst;
      }
      if install.Some? {
        return TrialAndAccess(install.value, now);
      }
      InitiateDownload(now);
      return Downloaded;
    }
  }

  /** Registering and then signing in with the same email and password succeeds, and the
      session carries the registered name. */
  method RegisterThenSignIn(users: map<string, User>, name: string, email: string, password: string, t0: int, t1: int)
    returns (registered: RegisterOutcome, signedIn: SignInOutcome, session: Option<Session>)
    requires name != [] && email != [] && |password| >= MinPasswordLength && email !in users
    ensures registered == RegisterOk && signedIn == SignedIn
    ensures session == Some(Session(email, name, t1))
  {
    var store := new Store(users);
    var m1, m2;
    registered, m1 := store.HandleRegister(name, email, password, t0);
    signedIn, m2 := store.HandleSignIn(email, password, t1);
    session := store.currentUser;
  }

  /** Registration never overwrites: whatever the outcome, every record that was there
      before is still there, unchanged. */
  lemma RegisterKeepsRecords(users: map<string, User>, name: string, email: string, password: string, now: int, e: string)
    requires e in users
    ensures var after := if RegisterCheck(users, name, email, password) == RegisterOk
                         then users[email := User(name, password, now)] else users;
      e in after && after[e] == users[e]
  {}

  /** A successful registration changes sign-in only for the new email. */
  lemma RegisterOnlyAddsOneLogin(users: map<string, User>, name: string, email: string, password: string,
                                 now: int, e: string, p: string)
    requires RegisterCheck(users, name, email, password) == RegisterOk
    ensures var after := users[email := User(name, password, now)];
      e != email ==> SignInCheck(after, e, p) == SignInCheck(users, e, p)
    ensures var after := users[email := User(name, password, now)];
      SignInCheck(after, email, p) == SignedIn <==> p == password
  {}
}

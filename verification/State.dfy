/** The stores behind the use cases, as one value, and the updates their doc
    comments promise (store.go, admin.go:56-80, mfa.go:40-75, webauthn.go:95-120,
    policy.go:245-260). */
module State {
  import opened Prelude
  import opened Roles
  import PasswordPolicy
  import Totp

  datatype User = User(org: string, email: string, name: string, hash: string, role: Role, disabled: bool)

  datatype Session = Session(
    user: string,
    expiresAt: Time,
    absoluteExpiresAt: Time,
    revoked: bool,
    steppedUpAt: Option<Time>)

  datatype ApiKey = ApiKey(user: string, role: Role, revoked: bool)

  /** A TOTP enrollment; the sealed secret is represented by the secret. */
  datatype Enrollment = Enrollment(secret: string, confirmed: bool, lastUsedStep: int)

  /** A step-one token. */
  datatype MfaToken = MfaToken(user: string, expiresAt: Time, used: bool)

  /** A registered security key. */
  datatype Credential = Credential(user: string, credentialId: string)

  datatype Purpose = Registration | SignIn | StepUp | Passwordless

  /** `user` is "" for a passwordless ceremony, which names nobody. */
  datatype Challenge = Challenge(user: string, purpose: Purpose, expiresAt: Time, used: bool)

  /** Accounts and what hangs off them. `emails` is the case-insensitive unique
      index on users; `history` holds outgoing password hashes, newest first. */
  datatype AccountTables = AccountTables(
    users: map<string, User>,
    emails: map<string, string>,
    keys: map<string, ApiKey>,
    history: map<string, seq<string>>,
    policies: map<string, PasswordPolicy.Policy>)

  /** Sign-ins and ceremonies that have begun. */
  datatype PendingTables = PendingTables(mfaTokens: map<string, MfaToken>, challenges: map<string, Challenge>)

  /** Second factors. A recovery code maps to whether it has been spent. */
  datatype FactorTables = FactorTables(
    enrollments: map<string, Enrollment>,
    recovery: map<string, map<string, bool>>,
    credentials: map<string, Credential>)

  /** All tables. Rows found by the hash of a bearer secret are filed under the
      secret itself, the hash being taken as injective. `minted` holds every
      random value ever used as a key: a second draw of the same value is a
      conflict. */
  datatype Db = Db(
    accounts: AccountTables,
    sessions: map<string, Session>,
    pending: PendingTables,
    factors: FactorTables,
    minted: set<string>)

  /** The fields a lifetime rule is handed for an account. */
  datatype Profile = Profile(id: string, org: string, email: string, role: Role)

  /** What the use cases call and this model does not open up: password hashing,
      HOTP, the policy check and the deployment's lifetime rule. */
  datatype Env = Env(
    verify: (string, string) -> Option<bool>,
    hash: (string, Salt) -> string,
    needsRehash: string -> bool,
    acceptable: (PasswordPolicy.Policy, string, seq<string>) -> bool,
    hotp: Totp.Hotp,
    lifetimes: Option<Profile -> (int, int)>)

  /** The authenticated caller. `user` is "" for a background job, `session` is
      "" for an API key or a background job. */
  datatype Identity = Identity(user: string, org: string, role: Role, session: string, steppedUpAt: Option<Time>)

  datatype Error =
    | NotPermitted | PrivilegedTarget | NotFound | LastAdmin | NoSuchRole | EmailRequired | EmailTaken
    | PolicyRefused | PasswordReused | PasswordAlreadySet | BadPolicy
    | NoCredentials | InvalidCredentials | CorruptHash
    | MfaNotEnrolled | MfaAlreadyConfirmed | InvalidTotpCode | InvalidRecoveryCode | InvalidMfaToken
    | CeremonyExpired | Rejected | NotRegistered | StepUpRequired | StepUpNeedsPasskey
    | Conflict

  /** How an operation ends. */
  datatype Outcome =
    | Refused(error: Error)
    | Done
    | Created(id: string)
    | KeyMinted(key: string)
    | SessionIssued(token: string)
    | MfaIssued(token: string)
    | CeremonyBegun(id: string)
    | Resolved(identity: Identity)

  // ---- Reads -----------------------------------------------------------------------

  function PolicyFor(db: Db, org: string): PasswordPolicy.Policy {
    if org in db.accounts.policies then db.accounts.policies[org] else PasswordPolicy.DEFAULT_POLICY
  }

  function HistoryOf(db: Db, id: string): seq<string> {
    if id in db.accounts.history then db.accounts.history[id] else []
  }

  function Newest(hashes: seq<string>, n: int): (r: seq<string>) {
    if n <= 0 then [] else if |hashes| <= n then hashes else hashes[..n]
  }

  /** The account's security keys. */
  function KeysOf(db: Db, id: string): set<string> {
    set row | row in db.factors.credentials && db.factors.credentials[row].user == id
  }

  predicate HasKeys(db: Db, id: string) {
    exists row :: row in db.factors.credentials && db.factors.credentials[row].user == id
  }

  predicate HasConfirmedTotp(db: Db, id: string) {
    id in db.factors.enrollments && db.factors.enrollments[id].confirmed
  }

  /** RequiresSecondFactor (mfa.go:567-579). */
  predicate RequiresSecondFactor(db: Db, id: string) {
    HasKeys(db, id) || HasConfirmedTotp(db, id)
  }

  predicate UnusedCode(db: Db, id: string, code: string) {
    id in db.factors.recovery && code in db.factors.recovery[id] && !db.factors.recovery[id][code]
  }

  predicate Enabled(db: Db, id: string) {
    id in db.accounts.users && !db.accounts.users[id].disabled
  }

  /** A live session: what SessionByTokenHash finds. */
  predicate Live(db: Db, now: Time, token: string) {
    && token in db.sessions
    && !db.sessions[token].revoked
    && now < db.sessions[token].expiresAt
    && now < db.sessions[token].absoluteExpiresAt
    && Enabled(db, db.sessions[token].user)
  }

  /** A live key: what APIKeyByHash finds. */
  predicate LiveKey(db: Db, key: string) {
    key in db.accounts.keys && !db.accounts.keys[key].revoked && Enabled(db, db.accounts.keys[key].user)
  }

  function ProfileOf(db: Db, id: string): Profile
    requires id in db.accounts.users
  {
    Profile(id, db.accounts.users[id].org, db.accounts.users[id].email, db.accounts.users[id].role)
  }

  function SessionIdentity(db: Db, token: string): Identity
    requires token in db.sessions && db.sessions[token].user in db.accounts.users
  {
    var s := db.sessions[token];
    Identity(s.user, db.accounts.users[s.user].org, db.accounts.users[s.user].role, token, s.steppedUpAt)
  }

  function KeyIdentity(db: Db, key: string): Identity
    requires key in db.accounts.keys && db.accounts.keys[key].user in db.accounts.users
  {
    var k := db.accounts.keys[key];
    Identity(k.user, db.accounts.users[k.user].org, k.role, "", None)
  }

  // ---- Writes ----------------------------------------------------------------------

  function WithUser(db: Db, id: string, u: User): Db {
    db.(accounts := db.accounts.(users := db.accounts.users[id := u]))
  }

  /** CreateUser: the row and its entry in the address index. */
  function WithNewUser(db: Db, id: string, u: User, address: string): Db {
    db.(accounts := db.accounts.(
      users := db.accounts.users[id := u],
      emails := db.accounts.emails[address := id]))
  }

  function WithHash(db: Db, id: string, hash: string): Db
    requires id in db.accounts.users
  {
    WithUser(db, id, db.accounts.users[id].(hash := hash))
  }

  function WithKey(db: Db, key: string, k: ApiKey): Db {
    db.(accounts := db.accounts.(keys := db.accounts.keys[key := k]))
  }

  function RevokedFor(sessions: map<string, Session>, id: string): map<string, Session> {
    map t | t in sessions :: if sessions[t].user == id then sessions[t].(revoked := true) else sessions[t]
  }

  /** RevokeSessionsByUser. */
  function WithoutSessionsOf(db: Db, id: string): Db {
    db.(sessions := RevokedFor(db.sessions, id))
  }

  /** RecordPasswordChange: files the outgoing hash and trims to depth. */
  function WithChangeRecorded(db: Db, id: string, previous: string, depth: int): Db {
    db.(accounts := db.accounts.(
      history := db.accounts.history[id := Newest([previous] + HistoryOf(db, id), depth)]))
  }

  function SessionsWithout(sessions: map<string, Session>, id: string): map<string, Session> {
    map t | t in sessions && sessions[t].user != id :: sessions[t]
  }

  function KeysWithout(keys: map<string, ApiKey>, id: string): map<string, ApiKey> {
    map k | k in keys && keys[k].user != id :: keys[k]
  }

  /** DeleteUser: the account, and with it its sessions and API keys. */
  function WithoutUser(db: Db, id: string, address: string): Db {
    db.(
      accounts := db.accounts.(
        users := db.accounts.users - {id},
        emails := db.accounts.emails - {address},
        keys := KeysWithout(db.accounts.keys, id)),
      sessions := SessionsWithout(db.sessions, id))
  }

  function WithSession(db: Db, token: string, s: Session): Db {
    db.(sessions := db.sessions[token := s])
  }

  /** StampStepUp: a session that is gone is not brought back. */
  function WithStamp(db: Db, token: string, now: Time): Db {
    if token in db.sessions then WithSession(db, token, db.sessions[token].(steppedUpAt := Some(now))) else db
  }

  function WithToken(db: Db, token: string, t: MfaToken): Db {
    db.(pending := db.pending.(mfaTokens := db.pending.mfaTokens[token := t]))
  }

  function WithChallenge(db: Db, id: string, c: Challenge): Db {
    db.(pending := db.pending.(challenges := db.pending.challenges[id := c]))
  }

  function WithEnrollment(db: Db, id: string, e: Enrollment): Db {
    db.(factors := db.factors.(enrollments := db.factors.enrollments[id := e]))
  }

  /** DeleteTOTP. */
  function WithoutEnrollment(db: Db, id: string): Db {
    db.(factors := db.factors.(enrollments := db.factors.enrollments - {id}))
  }

  function WithRecovery(db: Db, id: string, codes: map<string, bool>): Db {
    db.(factors := db.factors.(recovery := db.factors.recovery[id := codes]))
  }

  /** ReplaceRecoveryCodes. */
  function WithCodes(db: Db, id: string, codes: set<string>): Db {
    WithRecovery(db, id, map c | c in codes :: false)
  }

  function WithCredential(db: Db, row: string, c: Credential): Db {
    db.(factors := db.factors.(credentials := db.factors.credentials[row := c]))
  }

  function WithoutCredential(db: Db, row: string): Db {
    db.(factors := db.factors.(credentials := db.factors.credentials - {row}))
  }

  function CredentialsWithout(credentials: map<string, Credential>, id: string): map<string, Credential> {
    map row | row in credentials && credentials[row].user != id :: credentials[row]
  }

  /** RevokeAllCredentials. */
  function WithoutKeysOf(db: Db, id: string): Db {
    db.(factors := db.factors.(credentials := CredentialsWithout(db.factors.credentials, id)))
  }

  function WithMinted(db: Db, value: string): Db {
    db.(minted := db.minted + {value})
  }
}

/** The tables behind agent registrations, claim attempts and child accounts, and the transactions that write them. */
module AgentTables {
  import opened Wrappers
  import opened CeremonyJournal

  type Did = string
  type RegistrationId = string
  type AttemptId = string
  type Time = int

  datatype Account = Account(email: string, root: string, rev: string, active: bool)

  datatype Provisioning = Provisioning(
    parent: Did, handle: string, registration: RegistrationId, op: string, scopes: string, assertion: string,
    genesisCar: string, syncCar: string, published: bool, finalized: bool)

  datatype Kind = Anonymous | Child | Other

  datatype Status = Active | Claimed | Revoked

  datatype Identity = Identity(did: Option<Did>, parent: Option<Did>, kind: Kind, status: Status, scopes: string,
                               assertion: string)

  datatype AttemptOutcome = Pending | Completed | Expired

  datatype Attempt = Attempt(identity: RegistrationId, expires: Time, outcome: AttemptOutcome)

  datatype Frame = CommitFrame(did: Did, root: string, rev: string, blocks: string) | SyncFrame(did: Did, rev: string,
                               blocks: string)

  datatype Audit =
    | ClaimConfirmed(registration: RegistrationId, attempt: AttemptId, confirmer: Did)
    | ClaimExpired(registration: RegistrationId, attempt: AttemptId, owner: Option<Did>)

  datatype Tables = Tables(
    accounts: map<Did, Account>,
    handles: map<string, Did>,
    provisionings: map<Did, Provisioning>,
    identities: map<RegistrationId, Identity>,
    attempts: map<AttemptId, Attempt>,
    frames: seq<Frame>,
    audit: seq<Audit>)

  datatype MintError = DidAlreadyExists | HandleTaken | InvalidClaim | InternalError | PlcDirectoryError

  datatype Registration = New(id: RegistrationId) | FromClaim(id: RegistrationId, attempt: AttemptId, confirmer: Did)

  /** A mint whose handle, genesis operation and reserved key have been checked, with what it will store. */
  datatype Request = Request(
    parent: Did, handle: string, child: Did, registration: Registration, op: string, root: string, rev: string,
    scopes: string, assertion: string, genesisCar: string, syncCar: string)

  datatype Prepared = Prepared(
    child: Did, handle: string, parent: Did, registration: RegistrationId, scopes: string, assertion: string,
    op: string, root: string, rev: string, genesisCar: string, syncCar: string)

  // The steps of a mint, in order.
  const PREPARED: nat := 0
  const PUBLISHED: nat := 1
  const FINALIZED: nat := 2

  /** `ChildProvisioning::load`. */
  function LoadCursor(t: Tables, child: Did): Option<nat> {
    if child !in t.provisionings then None
    else if t.provisionings[child].finalized then Some(FINALIZED)
    else if t.provisionings[child].published then Some(PUBLISHED)
    else Some(PREPARED)
  }

  /** `ChildProvisioning::save` for the published step, the only one not recorded by its own transaction. */
  function SavePublished(t: Tables, child: Did): Tables {
    if child in t.provisionings then
      t.(provisionings := t.provisionings[child := t.provisionings[child].(published := true)])
    else t
  }

  function EmailOf(registration: RegistrationId): string {
    registration + "@agents.invalid"
  }

  function RowOf(r: Request): Provisioning {
    Provisioning(r.parent, r.handle, r.registration.id, r.op, r.scopes, r.assertion, r.genesisCar, r.syncCar,
                 false, false)
  }

  function PreparedOf(r: Request): Prepared {
    Prepared(r.child, r.handle, r.parent, r.registration.id, r.scopes, r.assertion, r.op, r.root, r.rev, r.genesisCar,
      r.syncCar)
  }

  predicate EmailTaken(t: Tables, email: string) {
    exists d :: d in t.accounts && t.accounts[d].email == email
  }

  predicate RowTaken(t: Tables, r: Request) {
    r.child in t.provisionings ||
    exists d :: d in t.provisionings &&
                (t.provisionings[d].handle == r.handle || t.provisionings[d].registration == r.registration.id)
  }

  /** The transaction of `prepare_child`: the deactivated account, its handle and its provisioning row, or nothing. */
  function PrepareChild(t: Tables, r: Request): Result<Tables, MintError> {
    if r.child in t.accounts || EmailTaken(t, EmailOf(r.registration.id)) then Err(DidAlreadyExists)
    else if r.handle in t.handles then Err(HandleTaken)
    else if RowTaken(t, r) || r.parent !in t.accounts then Err(InternalError)
    else Ok(t.(accounts := t.accounts[r.child := Account(EmailOf(r.registration.id), r.root, r.rev, false)],
               handles := t.handles[r.handle := r.child],
               provisionings := t.provisionings[r.child := RowOf(r)]))
  }

  /** `load_prepared_child`: the stored row, for the same parent and handle only. */
  function LoadPrepared(t: Tables, r: Request): Result<Prepared, MintError> {
    if r.child !in t.provisionings || r.child !in t.accounts then Err(InternalError)
    else
      var (row, account) := (t.provisionings[r.child], t.accounts[r.child]);
      if row.parent != r.parent || row.handle != r.handle then Err(DidAlreadyExists)
      else Ok(Prepared(r.child, row.handle, row.parent, row.registration, row.scopes, row.assertion, row.op,
                       account.root, account.rev, row.genesisCar, row.syncCar))
  }

  /** `complete_agent_claim_attempt`: flips a pending attempt that has not lapsed. */
  predicate CanComplete(t: Tables, attempt: AttemptId, now: Time) {
    attempt in t.attempts && t.attempts[attempt].outcome == Pending && t.attempts[attempt].expires > now
  }

  function SetOutcome(t: Tables, attempt: AttemptId, outcome: AttemptOutcome): Tables
    requires attempt in t.attempts
  {
    t.(attempts := t.attempts[attempt := t.attempts[attempt].(outcome := outcome)])
  }

  /** `convert_identity_to_child` applies to an active, ownerless, anonymous registration. */
  predicate CanConvert(t: Tables, id: RegistrationId) {
    id in t.identities && t.identities[id].status == Active && t.identities[id].did == None
      && t.identities[id].kind == Anonymous
  }

  /** The registration of a minted child. */
  function ChildIdentity(p: Prepared): Identity {
    Identity(Some(p.child), Some(p.parent), Child, Claimed, p.scopes, p.assertion)
  }

  /** The registration half of `finalize_child`: a fresh claimed row, or the conversion paid for by a claim attempt. */
  function ClaimRegistration(t: Tables, p: Prepared, registration: Registration, now: Time): Result<Tables, MintError> {
    match registration
    case New(_) =>
      if p.registration in t.identities then Err(InternalError)
      else Ok(t.(identities := t.identities[p.registration := ChildIdentity(p)]))
    case FromClaim(_, attempt, confirmer) =>
      if !CanComplete(t, attempt, now) then Err(InvalidClaim)
      else if !CanConvert(t, p.registration) then Err(InvalidClaim)
      else Ok(SetOutcome(t, attempt, Completed).(
                identities := t.identities[p.registration := ChildIdentity(p)],
                audit := t.audit + [ClaimConfirmed(p.registration, attempt, confirmer)]))
  }

  function GenesisFrames(p: Prepared): seq<Frame> {
    [CommitFrame(p.child, p.root, p.rev, p.genesisCar), SyncFrame(p.child, p.rev, p.syncCar)]
  }

  /** The rest of `finalize_child`: stage the genesis frames, activate, and record the row that is published. */
  function ActivateChild(t: Tables, p: Prepared): Tables {
    t.(frames := t.frames + GenesisFrames(p),
       accounts :=
         if p.child in t.accounts then t.accounts[p.child := t.accounts[p.child].(active := true)] else t.accounts,
       provisionings :=
         if p.child in t.provisionings && t.provisionings[p.child].published
         then t.provisionings[p.child := t.provisionings[p.child].(finalized := true)] else t.provisionings)
  }

  /** The transaction of `finalize_child`. */
  function FinalizeChild(t: Tables, p: Prepared, registration: Registration, now: Time): Result<Tables, MintError> {
    var claimed := ClaimRegistration(t, p, registration, now);
    if claimed.Err? then claimed else Ok(ActivateChild(claimed.value, p))
  }

  // ---- the competing writers of claim attempts ----

  predicate Lapsed(t: Tables, attempt: AttemptId, now: Time) {
    attempt in t.attempts && t.attempts[attempt].outcome == Pending && t.attempts[attempt].expires <= now
  }

  /** `expired_pending_claim_attempts`: pending, lapsed, and joined with its registration. */
  predicate Due(t: Tables, attempt: AttemptId, now: Time) {
    Lapsed(t, attempt, now) && t.attempts[attempt].identity in t.identities
  }

  /** The rows the listing may return: every due attempt once, in any order. */
  ghost predicate Lists(t: Tables, now: Time, due: seq<AttemptId>) {
    && (forall a :: a in due <==> Due(t, a, now))
    && (forall i, j :: 0 <= i < j < |due| ==> due[i] != due[j])
  }

  /** `expire_pending_agent_claim_attempts`. */
  function ExpireLapsed(t: Tables, now: Time): Tables {
    t.(attempts := map a | a in t.attempts ::
         if Lapsed(t, a, now) then t.attempts[a].(outcome := Expired) else t.attempts[a])
  }

  function ExpiryEvent(t: Tables, attempt: AttemptId): Audit
    requires attempt in t.attempts && t.attempts[attempt].identity in t.identities
  {
    ClaimExpired(t.attempts[attempt].identity, attempt, t.identities[t.attempts[attempt].identity].did)
  }

  function ExpiryEvents(t: Tables, due: seq<AttemptId>): seq<Audit>
    requires forall a :: a in due ==> a in t.attempts && t.attempts[a].identity in t.identities
  {
    seq(|due|, i requires 0 <= i < |due| => ExpiryEvent(t, due[i]))
  }

  /** One sweep transaction that lists at `listed` and flips at `flipped`; an empty list flips nothing. */
  function SweepTables(t: Tables, listed: Time, flipped: Time, due: seq<AttemptId>): Tables
    requires Lists(t, listed, due)
  {
    if due == [] then t else ExpireLapsed(t, flipped).(audit := t.audit + ExpiryEvents(t, due))
  }

  /** The confirm that claims a registration for its owner instead of minting a child, as one transaction. */
  function ConfirmForOwner(t: Tables, attempt: AttemptId, bind: bool, confirmer: Did, scopes: string,
                           assertion: string, now: Time)
    : Option<Tables>
  {
    if !CanComplete(t, attempt, now) || t.attempts[attempt].identity !in t.identities then None
    else
      var id := t.attempts[attempt].identity;
      var row := t.identities[id];
      if row.status != Active || (bind && row.did.Some?) then None
      else Some(SetOutcome(t, attempt, Completed).(
                  identities := t.identities[id := row.(status := Claimed, scopes := scopes, assertion := assertion,
                                                        did := if bind then Some(confirmer) else row.did)],
                  audit := t.audit + [ClaimConfirmed(id, attempt, confirmer)]))
  }
}

/** What one mint request answers and leaves behind, read off the tables it found and the faults it met. */
module MintOutcome {
  import opened Wrappers
  import opened CeremonyJournal
  import opened AgentTables
  import opened ChildMint

  /** What the environment does to one mint: whether its transactions commit, and how its network calls and save end. */
  datatype Weather = Weather(prepareCommits: bool, finds: bool, publish: CeremonyJournal.Outcome,
                             save: CeremonyJournal.Outcome,
                             finalizeCommits: bool)

  /** The row the mint works on: the stored one, or the one the request asks for. */
  function WorkRow(t: Tables, r: Request): Provisioning {
    if r.child in t.provisionings then t.provisionings[r.child]
    else Provisioning(parent := r.parent, handle := r.handle, registration := r.registration.id, op := r.op,
                      scopes := r.scopes, assertion := r.assertion, genesisCar := r.genesisCar, syncCar := r.syncCar,
                      published := false, finalized := false)
  }

  /** The child's account, deactivated when it is new. */
  function WorkAccount(t: Tables, r: Request): Account {
    if r.child in t.provisionings && r.child in t.accounts then t.accounts[r.child]
    else Account(email := r.registration.id + "@agents.invalid", root := r.root, rev := r.rev, active := false)
  }

  // ---- what may be in the way, in the order it is met ----

  function ReserveObstacle(t: Tables, r: Request, w: Weather): Option<MintError> {
    if r.child == r.parent then Some(InvalidClaim)
    else if r.child in t.provisionings then
      var row := t.provisionings[r.child];
      if row.parent == r.parent && row.handle == r.handle then None else Some(DidAlreadyExists)
    else if r.child in t.accounts
         || (exists d :: d in t.accounts && t.accounts[d].email == r.registration.id + "@agents.invalid")
    then Some(DidAlreadyExists)
    else if r.handle in t.handles then Some(HandleTaken)
    else if (exists d :: d in t.provisionings && t.provisionings[d].handle == r.handle)
         || (exists d :: d in t.provisionings && t.provisionings[d].registration == r.registration.id)
         || r.parent !in t.accounts || !w.prepareCommits then Some(InternalError)
    else None
  }

  /** The genesis operation is posted, or found. */
  predicate Posts(directory: set<Did>, r: Request, w: Weather) {
    w.publish.Done? || (w.finds && r.child in directory)
  }

  /**
   * A new registration must not exist; a claim needs a live attempt and an active, ownerless, anonymous registration.
   */
  function RegistrationObstacle(t: Tables, id: RegistrationId, registration: Registration,
                                now: Time): Option<MintError> {
    match registration
    case New(_) => if id in t.identities then Some(InternalError) else None
    case FromClaim(_, attempt, _) =>
      if && attempt in t.attempts && t.attempts[attempt].outcome == Pending && now < t.attempts[attempt].expires
         && id in t.identities && t.identities[id].status == Active && t.identities[id].kind == Anonymous
         && t.identities[id].did == None
      then None else Some(InvalidClaim)
  }

  function Obstacle(t: Tables, directory: set<Did>, r: Request, w: Weather, now: Time): Option<MintError> {
    var row := WorkRow(t, r);
    if ReserveObstacle(t, r, w).Some? then ReserveObstacle(t, r, w)
    else if row.finalized then None
    else if !row.published && !Posts(directory, r, w) then Some(PlcDirectoryError)
    else if !row.published && w.save.Failed? then Some(InternalError)
    else if RegistrationObstacle(t, row.registration, r.registration, now).Some? then
      RegistrationObstacle(t, row.registration, r.registration, now)
    else if !w.finalizeCommits then Some(InternalError)
    else None
  }

  // ---- what is left behind ----

  /** The child reserved: its deactivated account, its handle and its row. */
  function Reserved(t: Tables, r: Request): Tables {
    if r.child in t.provisionings then t
    else t.(accounts := t.accounts[r.child := WorkAccount(t, r)], handles := t.handles[r.handle := r.child],
            provisionings := t.provisionings[r.child := WorkRow(t, r)])
  }

  /** The child reserved and its publication recorded. */
  function PublishedTables(t: Tables, r: Request): Tables {
    var u := Reserved(t, r);
    u.(provisionings := u.provisionings[r.child := WorkRow(t, r).(published := true)])
  }

  /** The child minted: activated, its registration claimed, its attempt spent, its genesis sequenced. */
  function MintedTables(t: Tables, r: Request): Tables {
    var (row, account, u) := (WorkRow(t, r), WorkAccount(t, r), Reserved(t, r));
    u.(accounts := u.accounts[r.child := account.(active := true)],
       provisionings := u.provisionings[r.child := row.(published := true, finalized := true)],
       identities := u.identities[row.registration :=
         Identity(did := Some(r.child), parent := Some(r.parent), kind := Child, status := Claimed,
                  scopes := row.scopes, assertion := row.assertion)],
       attempts :=
         if r.registration.FromClaim? && r.registration.attempt in u.attempts
         then u.attempts[r.registration.attempt := u.attempts[r.registration.attempt].(outcome := Completed)]
         else u.attempts,
       audit := u.audit +
         if r.registration.FromClaim?
         then [ClaimConfirmed(registration := row.registration, attempt := r.registration.attempt,
                              confirmer := r.registration.confirmer)]
         else [],
       frames := u.frames
                 + [CommitFrame(did := r.child, root := account.root, rev := account.rev, blocks := row.genesisCar),
                    SyncFrame(did := r.child, rev := account.rev, blocks := row.syncCar)])
  }

  function TablesLeft(t: Tables, directory: set<Did>, r: Request, w: Weather, now: Time): Tables {
    var row := WorkRow(t, r);
    if ReserveObstacle(t, r, w).Some? || row.finalized then t
    else if Obstacle(t, directory, r, w, now).None? then MintedTables(t, r)
    else if !row.published && Posts(directory, r, w) && (w.save.Done? || w.save.landed) then
      PublishedTables(t, r)
    else Reserved(t, r)
  }

  function DirectoryLeft(t: Tables, directory: set<Did>, r: Request, w: Weather): set<Did> {
    if ReserveObstacle(t, r, w).None? && !WorkRow(t, r).published && (Posts(directory, r, w) || w.publish.landed)
    then directory + {r.child} else directory
  }

  /** The child as it is returned. */
  function ChildOf(t: Tables, r: Request): Prepared {
    var (row, account) := (WorkRow(t, r), WorkAccount(t, r));
    Prepared(child := r.child, handle := r.handle, parent := r.parent, registration := row.registration,
             scopes := row.scopes, assertion := row.assertion, op := row.op, root := account.root, rev := account.rev,
             genesisCar := row.genesisCar, syncCar := row.syncCar)
  }

  function Answer(t: Tables, directory: set<Did>, r: Request, w: Weather, now: Time): Result<Prepared, MintError> {
    var obstacle := Obstacle(t, directory, r, w, now);
    if obstacle.Some? then Err(obstacle.value) else Ok(ChildOf(t, r))
  }

  /**
   * An interrupted mint resumes: once its child is reserved, whatever stopped it, the same request with nothing failing
   * succeeds as long as the registration can still be had.
   */
  lemma InterruptedMintResumes(t: Tables, directory: set<Did>, r: Request, w: Weather, now: Time, fair: Weather,
                               later: Time)
    requires ReserveObstacle(t, r, w).None?
    requires fair.publish.Done? && fair.save.Done? && fair.finalizeCommits
    requires RegistrationObstacle(t, WorkRow(t, r).registration, r.registration, later).None?
    ensures var (t', directory') := (TablesLeft(t, directory, r, w, now), DirectoryLeft(t, directory, r, w));
            && Answer(t', directory', r, fair, later) == Ok(ChildOf(t, r))
            && (Obstacle(t, directory, r, w, now).Some? ==>
                  TablesLeft(t', directory', r, fair, later) == MintedTables(t, r))
  {
    hide Reserved, PublishedTables, MintedTables, WorkAccount;
    if !WorkRow(t, r).finalized {
      ReservedStands(t, r);
      PublishedStands(t, r);
    }
    MintedStands(t, r);
  }

  predicate SameChild(t: Tables, u: Tables, r: Request) {
    && r.child in u.provisionings && ChildOf(u, r) == ChildOf(t, r)
    && WorkRow(u, r).parent == WorkRow(t, r).parent && WorkRow(u, r).handle == WorkRow(t, r).handle
  }

  /**
   * A request for the child finds the same row, which is still unfinalized, and the same registrations and attempts.
   */
  ghost predicate Stands(t: Tables, u: Tables, r: Request) {
    && SameChild(t, u, r) && !WorkRow(u, r).finalized
    && u.identities == t.identities && u.attempts == t.attempts && MintedTables(u, r) == MintedTables(t, r)
  }

  lemma ReservedStands(t: Tables, r: Request)
    requires !WorkRow(t, r).finalized
    ensures Stands(t, Reserved(t, r), r)
  {}

  lemma PublishedStands(t: Tables, r: Request)
    requires !WorkRow(t, r).finalized
    ensures Stands(t, PublishedTables(t, r), r)
  {
    ReservedStands(t, r);
  }

  lemma MintedStands(t: Tables, r: Request)
    ensures SameChild(t, MintedTables(t, r), r) && WorkRow(MintedTables(t, r), r).finalized
  {}
}

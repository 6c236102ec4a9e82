/** Concurrent, crashing, resuming mints of child accounts over the agent tables and plc.directory. */
module ChildMint {
  import opened Wrappers
  import opened CeremonyJournal
  import opened AgentTables

  type MintId = nat

  /**
   * Where one mint request stands. `Holding` has its prepared child; `Posted` has also heard back from the directory.
   */
  datatype Phase =
    | Begun
    | Resumed(loaded: Option<nat>)
    | Holding(cursor: nat, prepared: Prepared)
    | Posted(cursor: nat, prepared: Prepared)
    | Minted

  datatype Mint = Mint(request: Request, phase: Phase)

  /** `directory` is the set of children whose genesis operation plc.directory has accepted. */
  datatype System = System(t: Tables, directory: set<Did>, mints: map<MintId, Mint>)

  datatype Action =
    | Begin(m: MintId, request: Request)
    | Resume(m: MintId)
    | Prepare(m: MintId, commits: bool)
    | Reload(m: MintId)
    | Publish(m: MintId, answered: bool, landed: bool)
    | RecordPublished(m: MintId, outcome: CeremonyJournal.Outcome)
    | Finalize(m: MintId, now: Time, commits: bool)
    | Finish(m: MintId)
    | Crash(m: MintId)
    | Register(id: RegistrationId, identity: Identity)
    | StartClaim(attempt: AttemptId, registration: RegistrationId, expires: Time)
    | OpenAccount(did: Did, account: Account)
    | Sweep(at: Time, due: seq<AttemptId>)
    | ConfirmOwn(attempt: AttemptId, bind: bool, confirmer: Did, scopes: string, assertion: string, at: Time)

  function Drop(s: System, m: MintId): System {
    s.(mints := s.mints - {m})
  }

  function Move(s: System, m: MintId, phase: Phase): System
    requires m in s.mints
  {
    s.(mints := s.mints[m := s.mints[m].(phase := phase)])
  }

  /** A step of one mint: the next statement of `mint_child_account` under its journal. An error ends the request. */
  function ApplyMint(s: System, m: MintId, a: Action): Option<System>
    requires m in s.mints
  {
    var (request, phase) := (s.mints[m].request, s.mints[m].phase);
    match (a, phase)
    case (Resume(_), Begun) =>
      Some(if request.child == request.parent then Drop(s, m) else Move(s, m, Resumed(LoadCursor(s.t, request.child))))
    case (Prepare(_, commits), Resumed(None)) =>
      var r := PrepareChild(s.t, request);
      Some(if r.Err? || !commits then Drop(s, m) else Move(s, m, Holding(PREPARED, PreparedOf(request))).(t := r.value))
    case (Reload(_), Resumed(Some(cursor))) =>
      var r := LoadPrepared(s.t, request);
      Some(if r.Err? then Drop(s, m) else Move(s, m, Holding(cursor, r.value)))
    case (Publish(_, answered, landed), Holding(cursor, p)) =>
      if Reaches(Some(cursor), PUBLISHED) then None
      else
        var s' := if answered || landed then s.(directory := s.directory + {p.child}) else s;
        Some(if answered then Move(s', m, Posted(cursor, p)) else Drop(s', m))
    case (RecordPublished(_, outcome), Posted(_, p)) =>
      var s' := if outcome.Done? || outcome.landed then s.(t := SavePublished(s.t, p.child)) else s;
      Some(if outcome.Done? then Move(s', m, Holding(PUBLISHED, p)) else Drop(s', m))
    case (Finalize(_, now, commits), Holding(cursor, p)) =>
      if !Reaches(Some(cursor), PUBLISHED) || Reaches(Some(cursor), FINALIZED) then None
      else
        var r := FinalizeChild(s.t, p, request.registration, now);
        Some(if r.Err? || !commits then Drop(s, m) else Move(s, m, Holding(FINALIZED, p)).(t := r.value))
    case (Finish(_), Holding(cursor, p)) =>
      if Reaches(Some(cursor), FINALIZED) then Some(Move(s, m, Minted)) else None
    case (Crash(_), _) => Some(Drop(s, m))
    case _ => None
  }

  ghost function Apply(s: System, a: Action): Option<System> {
    match a
    case Begin(m, request) => if m in s.mints then None else Some(s.(mints := s.mints[m := Mint(request, Begun)]))
    case Register(id, identity) =>
      if id in s.t.identities || identity.kind == Child then None
      else Some(s.(t := s.t.(identities := s.t.identities[id := identity])))
    case StartClaim(attempt, registration, expires) =>
      if attempt in s.t.attempts || registration !in s.t.identities then None
      else Some(s.(t := s.t.(attempts := s.t.attempts[attempt := Attempt(registration, expires, Pending)])))
    case OpenAccount(did, account) =>
      if did in s.t.accounts then None else Some(s.(t := s.t.(accounts := s.t.accounts[did := account])))
    case Sweep(at, due) => if Lists(s.t, at, due) then Some(s.(t := SweepTables(s.t, at, at, due))) else None
    case ConfirmOwn(attempt, bind, confirmer, scopes, assertion, at) =>
      var r := ConfirmForOwner(s.t, attempt, bind, confirmer, scopes, assertion, at);
      if r.None? then None else Some(s.(t := r.value))
    case _ => if a.m in s.mints then ApplyMint(s, a.m, a) else None
  }

  const EMPTY := System(Tables(map[], map[], map[], map[], map[], [], []), {}, map[])

  ghost function Run(s: System, actions: seq<Action>): Option<System>
    decreases |actions|
  {
    if actions == [] then Some(s)
    else
      var r := Run(s, actions[..|actions| - 1]);
      if r.None? then None else Apply(r.value, actions[|actions| - 1])
  }

  // ---- the logs, by child and by attempt ----

  function FramesOf(frames: seq<Frame>, d: Did): seq<Frame> {
    if frames == [] then []
    else
      var last := frames[|frames| - 1];
      FramesOf(frames[..|frames| - 1], d) + if last.did == d then [last] else []
  }

  function AuditOf(audit: seq<Audit>, a: AttemptId): seq<Audit> {
    if audit == [] then []
    else
      var last := audit[|audit| - 1];
      AuditOf(audit[..|audit| - 1], a) + if last.attempt == a then [last] else []
  }

  lemma FramesAppend(frames: seq<Frame>, f: Frame, d: Did)
    ensures FramesOf(frames + [f], d) == FramesOf(frames, d) + if f.did == d then [f] else []
  {
    assert (frames + [f])[..|frames|] == frames;
  }

  lemma AuditAppend(audit: seq<Audit>, e: Audit, a: AttemptId)
    ensures AuditOf(audit + [e], a) == AuditOf(audit, a) + if e.attempt == a then [e] else []
  {
    assert (audit + [e])[..|audit|] == audit;
  }

  // ---- what holds in every reachable state ----

  function GenesisFramesOf(t: Tables, d: Did): seq<Frame>
    requires d in t.provisionings && d in t.accounts
  {
    var (row, account) := (t.provisionings[d], t.accounts[d]);
    [CommitFrame(d, account.root, account.rev, row.genesisCar), SyncFrame(d, account.rev, row.syncCar)]
  }

  /** The registration of a finalized child is claimed for that child under its parent. */
  predicate RegistrationClaimed(t: Tables, d: Did)
    requires d in t.provisionings
  {
    var row := t.provisionings[d];
    row.registration in t.identities
    && t.identities[row.registration] == Identity(Some(d), Some(row.parent), Child, Claimed, row.scopes, row.assertion)
  }

  /** One child's rows agree: active, finalized, claimed and sequenced exactly once, or none of these. */
  predicate ChildRows(t: Tables, d: Did) {
    if d !in t.provisionings then FramesOf(t.frames, d) == []
    else
      var row := t.provisionings[d];
      && d in t.accounts
      && (t.accounts[d].active <==> row.finalized)
      && (row.finalized ==> row.published && RegistrationClaimed(t, d))
      && FramesOf(t.frames, d) == if row.finalized then GenesisFramesOf(t, d) else []
  }

  /** An attempt's audit trail: nothing while it is pending, then exactly the event of its one outcome. */
  predicate AttemptTrail(t: Tables, a: AttemptId) {
    var trail := AuditOf(t.audit, a);
    if a !in t.attempts then trail == []
    else
      match t.attempts[a].outcome
      case Pending => trail == []
      case Completed => |trail| == 1 && trail[0].ClaimConfirmed?
      case Expired => |trail| == 1 && trail[0].ClaimExpired? && trail[0].registration == t.attempts[a].identity
  }

  /** Foreign keys and unique columns. */
  ghost predicate Keys(t: Tables) {
    && (forall a :: a in t.attempts ==> t.attempts[a].identity in t.identities)
    && (forall d :: d in t.provisionings ==> t.provisionings[d].parent in t.accounts)
    && (forall d, e :: d in t.provisionings && e in t.provisionings && d != e ==>
          t.provisionings[d].registration != t.provisionings[e].registration)
  }

  /** A mint's prepared child is the stored one. */
  predicate Matches(t: Tables, r: Request, p: Prepared) {
    && p.child == r.child && p.child in t.provisionings && p.child in t.accounts
    && LoadPrepared(t, r) == Ok(p)
  }

  /** A cursor never claims more than the stored row records. */
  predicate CursorHolds(t: Tables, d: Did, cursor: Option<nat>) {
    cursor.Some? ==>
      && d in t.provisionings
      && (Reaches(cursor, PUBLISHED) ==> t.provisionings[d].published)
      && (Reaches(cursor, FINALIZED) ==> t.provisionings[d].finalized)
  }

  predicate MintHolds(s: System, mint: Mint) {
    match mint.phase
    case Begun => true
    case Resumed(loaded) => CursorHolds(s.t, mint.request.child, loaded)
    case Holding(cursor, p) => Matches(s.t, mint.request, p) && CursorHolds(s.t, p.child, Some(cursor))
    case Posted(cursor, p) => Matches(s.t, mint.request, p) && p.child in s.directory
    case Minted => CursorHolds(s.t, mint.request.child, Some(FINALIZED))
  }

  ghost predicate Invariant(s: System) {
    && Keys(s.t)
    && (forall d :: ChildRows(s.t, d))
    && (forall a :: AttemptTrail(s.t, a))
    && (forall d :: d in s.t.provisionings && s.t.provisionings[d].published ==> d in s.directory)
    && (forall m :: m in s.mints ==> MintHolds(s, s.mints[m]))
  }

  // ---- what one transaction keeps ----

  ghost predicate TablesInvariant(t: Tables) {
    Keys(t) && (forall d :: ChildRows(t, d)) && (forall a :: AttemptTrail(t, a))
  }

  /** Provisioning rows stay, keep their contents, and only ever gain their two marks. */
  ghost predicate RowsGrow(t: Tables, t': Tables) {
    forall d :: d in t.provisionings ==> RowGrows(t, t', d)
  }

  predicate RowGrows(t: Tables, t': Tables, d: Did)
    requires d in t.provisionings
  {
    && d in t'.provisionings
    && (d in t.accounts ==> d in t'.accounts && t'.accounts[d] == t.accounts[d].(active := t'.accounts[d].active))
    && var (row, row') := (t.provisionings[d], t'.provisionings[d]);
       row' == row.(published := row'.published, finalized := row'.finalized)
       && (row.published ==> row'.published) && (row.finalized ==> row'.finalized)
  }

  /** A child's rows stay in agreement when nothing of theirs changes but the published mark. */
  lemma UntouchedChild(t: Tables, t': Tables, d: Did)
    requires ChildRows(t, d) && t'.frames == t.frames
    requires d in t'.provisionings <==> d in t.provisionings
    requires d in t.provisionings ==>
               && d in t.accounts && d in t'.accounts && t'.accounts[d] == t.accounts[d]
               && t'.provisionings[d].(published := t.provisionings[d].published) == t.provisionings[d]
               && (t.provisionings[d].published ==> t'.provisionings[d].published)
    requires t'.identities == t.identities
    ensures ChildRows(t', d)
  {
    hide FramesOf;
  }

  lemma PrepareGrows(t: Tables, r: Request)
    requires Keys(t) && PrepareChild(t, r).Ok?
    ensures Keys(PrepareChild(t, r).value) && RowsGrow(t, PrepareChild(t, r).value)
  {
    var t' := PrepareChild(t, r).value;
    forall d | d in t.provisionings ensures RowGrows(t, t', d) {}
  }

  lemma PrepareKeeps(t: Tables, r: Request)
    requires TablesInvariant(t) && PrepareChild(t, r).Ok?
    ensures TablesInvariant(PrepareChild(t, r).value) && RowsGrow(t, PrepareChild(t, r).value)
  {
    PrepareGrows(t, r);
    hide FramesOf, AuditOf, Keys, RowsGrow, EmailTaken, RowTaken, EmailOf;
    var t' := PrepareChild(t, r).value;
    forall d ensures ChildRows(t', d) {
      assert ChildRows(t, d);
      if d != r.child { UntouchedChild(t, t', d); }
    }
    hide ChildRows;
    forall a ensures AttemptTrail(t', a) {
      UntouchedTrail(t, t', a);
    }
  }

  lemma PublishedGrows(t: Tables, child: Did)
    ensures RowsGrow(t, SavePublished(t, child)) && (Keys(t) ==> Keys(SavePublished(t, child)))
  {
    if child in t.provisionings {
      var t' := SavePublished(t, child);
      forall d | d in t.provisionings ensures RowGrows(t, t', d) {}
    }
  }

  lemma PublishedKeeps(t: Tables, child: Did)
    requires TablesInvariant(t)
    ensures TablesInvariant(SavePublished(t, child)) && RowsGrow(t, SavePublished(t, child))
  {
    PublishedGrows(t, child);
    var t' := SavePublished(t, child);
    hide ChildRows, AttemptTrail, RowsGrow, Keys;
    forall d ensures ChildRows(t', d) {
      RowsHaveAccounts(t, d);
      UntouchedChild(t, t', d);
    }
    forall a ensures AttemptTrail(t', a) {
      UntouchedTrail(t, t', a);
    }
  }

  lemma RowsHaveAccounts(t: Tables, d: Did)
    requires ChildRows(t, d)
    ensures d in t.provisionings ==> d in t.accounts
  {}

  lemma UntouchedTrail(t: Tables, t': Tables, a: AttemptId)
    requires AttemptTrail(t, a) && t'.audit == t.audit && t'.attempts == t.attempts
    ensures AttemptTrail(t', a)
  {}

  /** A finalize cannot commit twice: the first one claimed the registration for good. */
  lemma FinalizedOnce(t: Tables, p: Prepared, registration: Registration, now: Time)
    requires TablesInvariant(t) && p.child in t.provisionings && t.provisionings[p.child].registration == p.registration
    requires t.provisionings[p.child].finalized
    ensures FinalizeChild(t, p, registration, now).Err?
  {
    assert ChildRows(t, p.child);
  }

  lemma FinalizeFrames(frames: seq<Frame>, p: Prepared, d: Did)
    ensures FramesOf(frames + GenesisFrames(p), d)
         == FramesOf(frames, d) + if d == p.child then GenesisFrames(p) else []
  {
    var g := GenesisFrames(p);
    FramesAppend(frames, g[0], d);
    FramesAppend(frames + [g[0]], g[1], d);
    assert frames + g == frames + [g[0]] + [g[1]];
  }

  lemma ClaimKeepsTrail(t: Tables, p: Prepared, registration: Registration, now: Time, a: AttemptId)
    requires AttemptTrail(t, a) && FinalizeChild(t, p, registration, now).Ok?
    ensures AttemptTrail(FinalizeChild(t, p, registration, now).value, a)
  {
    hide FramesOf;
    if registration.FromClaim? {
      AuditAppend(t.audit, ClaimConfirmed(p.registration, registration.attempt, registration.confirmer), a);
      hide AuditOf;
    }
  }

  lemma FinalizeChildRows(t: Tables, p: Prepared, registration: Registration, now: Time, d: Did)
    requires Keys(t) && ChildRows(t, d) && p.child in t.provisionings && p.child in t.accounts
    requires p == LoadedRow(t, p.child) && t.provisionings[p.child].published && !t.provisionings[p.child].finalized
    requires FinalizeChild(t, p, registration, now).Ok?
    ensures ChildRows(FinalizeChild(t, p, registration, now).value, d)
  {
    FinalizeFrames(t.frames, p, d);
    hide FramesOf, AuditOf;
  }

  /** The stored row as `load_prepared_child` returns it. */
  function LoadedRow(t: Tables, child: Did): Prepared
    requires child in t.provisionings && child in t.accounts
  {
    var (row, account) := (t.provisionings[child], t.accounts[child]);
    Prepared(child, row.handle, row.parent, row.registration, row.scopes, row.assertion, row.op,
             account.root, account.rev, row.genesisCar, row.syncCar)
  }

  lemma FinalizeGrows(t: Tables, p: Prepared, registration: Registration, now: Time)
    requires Keys(t) && FinalizeChild(t, p, registration, now).Ok?
    ensures Keys(FinalizeChild(t, p, registration, now).value)
            && RowsGrow(t, FinalizeChild(t, p, registration, now).value)
  {
    var t' := FinalizeChild(t, p, registration, now).value;
    forall d | d in t.provisionings ensures RowGrows(t, t', d) {}
  }

  lemma FinalizeKeeps(t: Tables, r: Request, p: Prepared, registration: Registration, now: Time)
    requires TablesInvariant(t) && Matches(t, r, p) && t.provisionings[p.child].published
    requires FinalizeChild(t, p, registration, now).Ok?
    ensures var t' := FinalizeChild(t, p, registration, now).value;
            && TablesInvariant(t') && RowsGrow(t, t')
            && !t.provisionings[p.child].finalized && !t.accounts[p.child].active
            && p.child in t'.provisionings && t'.provisionings[p.child].finalized
            && p.child in t'.accounts && t'.accounts[p.child].active
  {
    hide FramesOf, AuditOf, RowsGrow;
    FinalizeGrows(t, p, registration, now);
    var t' := FinalizeChild(t, p, registration, now).value;
    if t.provisionings[p.child].finalized { FinalizedOnce(t, p, registration, now); }
    assert ChildRows(t, p.child);
    forall d ensures ChildRows(t', d) {
      FinalizeChildRows(t, p, registration, now, d);
    }
    forall a ensures AttemptTrail(t', a) {
      ClaimKeepsTrail(t, p, registration, now, a);
    }
  }

  lemma {:induction false} AuditConcat(audit: seq<Audit>, more: seq<Audit>, a: AttemptId)
    ensures AuditOf(audit + more, a) == AuditOf(audit, a) + AuditOf(more, a)
    decreases |more|
  {
    if more == [] {
      assert audit + more == audit;
    } else {
      var init := more[..|more| - 1];
      AuditConcat(audit, init, a);
      assert audit + more == audit + init + [more[|more| - 1]];
      AuditAppend(audit + init, more[|more| - 1], a);
    }
  }

  /** The sweep audits every attempt it lists exactly once. */
  lemma {:induction false} ExpiryTrail(t: Tables, due: seq<AttemptId>, a: AttemptId)
    requires forall x :: x in due ==> x in t.attempts && t.attempts[x].identity in t.identities
    requires forall i, j :: 0 <= i < j < |due| ==> due[i] != due[j]
    ensures AuditOf(ExpiryEvents(t, due), a) == if a in due then [ExpiryEvent(t, a)] else []
    decreases |due|
  {
    hide AuditOf, ExpiryEvents, ExpiryEvent;
    if due == [] {
      NoExpiries(t, a);
    } else {
      var init, last := due[..|due| - 1], due[|due| - 1];
      ExpiryTrail(t, init, a);
      LastExpiry(t, due);
      AuditAppend(ExpiryEvents(t, init), ExpiryEvent(t, last), a);
      assert due == init + [last];
    }
  }

  lemma NoExpiries(t: Tables, a: AttemptId)
    ensures AuditOf(ExpiryEvents(t, []), a) == []
  {}

  lemma LastExpiry(t: Tables, due: seq<AttemptId>)
    requires due != [] && forall x :: x in due ==> x in t.attempts && t.attempts[x].identity in t.identities
    ensures var (init, last) := (due[..|due| - 1], due[|due| - 1]);
            && ExpiryEvents(t, due) == ExpiryEvents(t, init) + [ExpiryEvent(t, last)]
            && ExpiryEvent(t, last).attempt == last
  {}

  lemma SweepKeeps(t: Tables, at: Time, due: seq<AttemptId>)
    requires TablesInvariant(t) && Lists(t, at, due)
    ensures TablesInvariant(SweepTables(t, at, at, due)) && RowsGrow(t, SweepTables(t, at, at, due))
  {
    hide FramesOf, AuditOf;
    var t' := SweepTables(t, at, at, due);
    forall d ensures ChildRows(t', d) {
      assert ChildRows(t, d);
    }
    forall a ensures AttemptTrail(t', a) {
      assert AttemptTrail(t, a);
      AuditConcat(t.audit, ExpiryEvents(t, due), a);
      ExpiryTrail(t, due, a);
    }
  }

  lemma ConfirmKeeps(t: Tables, attempt: AttemptId, bind: bool, confirmer: Did, scopes: string, assertion: string,
                     now: Time)
    requires TablesInvariant(t) && ConfirmForOwner(t, attempt, bind, confirmer, scopes, assertion, now).Some?
    ensures var t' := ConfirmForOwner(t, attempt, bind, confirmer, scopes, assertion, now).value;
            TablesInvariant(t') && RowsGrow(t, t')
  {
    hide FramesOf, AuditOf;
    var t' := ConfirmForOwner(t, attempt, bind, confirmer, scopes, assertion, now).value;
    forall d ensures ChildRows(t', d) {
      assert ChildRows(t, d);
    }
    forall a ensures AttemptTrail(t', a) {
      assert AttemptTrail(t, a);
      AuditAppend(t.audit, ClaimConfirmed(t.attempts[attempt].identity, attempt, confirmer), a);
    }
  }

  lemma OpeningGrows(s: System, a: Action)
    requires Keys(s.t) && (a.Register? || a.StartClaim? || a.OpenAccount?) && Apply(s, a).Some?
    ensures Keys(Apply(s, a).value.t) && RowsGrow(s.t, Apply(s, a).value.t)
  {
    forall d | d in s.t.provisionings ensures RowGrows(s.t, Apply(s, a).value.t, d) {}
  }

  /** Opening registrations, claims and accounts touches nothing that exists. */
  lemma OpeningKeeps(s: System, a: Action)
    requires TablesInvariant(s.t) && (a.Register? || a.StartClaim? || a.OpenAccount?) && Apply(s, a).Some?
    ensures TablesInvariant(Apply(s, a).value.t) && RowsGrow(s.t, Apply(s, a).value.t)
  {
    hide FramesOf, AuditOf, RowsGrow;
    OpeningGrows(s, a);
    hide Keys;
    var t' := Apply(s, a).value.t;
    forall d ensures ChildRows(t', d) {
      assert ChildRows(s.t, d);
    }
    forall x ensures AttemptTrail(t', x) {
      assert AttemptTrail(s.t, x);
    }
  }

  // ---- whole runs ----

  lemma GrowthKeepsMint(s: System, s': System, mint: Mint)
    requires MintHolds(s, mint) && RowsGrow(s.t, s'.t) && s.directory <= s'.directory
    ensures MintHolds(s', mint)
  {
    var d := match mint.phase case Holding(_, p) => p.child case Posted(_, p) => p.child case _ => mint.request.child;
    if d in s.t.provisionings {
      assert RowGrows(s.t, s'.t, d);
    }
  }

  /** What one step keeps of the tables and the directory. */
  ghost predicate TablesKept(s: System, s': System) {
    TablesInvariant(s'.t) && RowsGrow(s.t, s'.t) && s.directory <= s'.directory
  }

  lemma SameTablesKept(s: System, s': System)
    requires TablesInvariant(s.t) && s'.t == s.t && s.directory <= s'.directory
    ensures TablesKept(s, s')
  {
    hide TablesInvariant;
    forall d | d in s.t.provisionings ensures RowGrows(s.t, s'.t, d) {}
  }

  lemma StepPrepare(s: System, a: Action)
    requires Invariant(s) && a.Prepare? && Apply(s, a).Some?
    ensures TablesKept(s, Apply(s, a).value)
  {
    hide FramesOf, AuditOf, PrepareChild, TablesInvariant, RowsGrow;
    var r := s.mints[a.m].request;
    InvariantTables(s);
    if PrepareChild(s.t, r).Ok? && a.commits {
      PrepareKeeps(s.t, r);
    } else {
      SameTablesKept(s, Apply(s, a).value);
    }
  }

  lemma StepRecord(s: System, a: Action)
    requires Invariant(s) && a.RecordPublished? && Apply(s, a).Some?
    ensures TablesKept(s, Apply(s, a).value)
  {
    hide FramesOf, AuditOf, SavePublished, TablesInvariant, RowsGrow;
    InvariantTables(s);
    PublishedKeeps(s.t, s.mints[a.m].phase.prepared.child);
    if !(a.outcome.Done? || a.outcome.landed) {
      SameTablesKept(s, Apply(s, a).value);
    }
  }

  lemma StepFinalize(s: System, a: Action)
    requires Invariant(s) && a.Finalize? && Apply(s, a).Some?
    ensures TablesKept(s, Apply(s, a).value)
    ensures Finalizes(s, a) ==> FinalizeLands(s, a)
  {
    hide FramesOf, AuditOf, FinalizeChild, TablesInvariant, RowsGrow;
    InvariantTables(s);
    var (r, p) := (s.mints[a.m].request, s.mints[a.m].phase.prepared);
    assert MintHolds(s, s.mints[a.m]);
    if Finalizes(s, a) {
      FinalizeKeeps(s.t, r, p, r.registration, a.now);
    } else {
      SameTablesKept(s, Apply(s, a).value);
    }
  }

  /** The step is a mint's finalize that commits. */
  predicate Finalizes(s: System, a: Action) {
    && a.Finalize? && a.commits && a.m in s.mints && s.mints[a.m].phase.Holding?
    && Reaches(Some(s.mints[a.m].phase.cursor), PUBLISHED) && !Reaches(Some(s.mints[a.m].phase.cursor), FINALIZED)
    && FinalizeChild(s.t, s.mints[a.m].phase.prepared, s.mints[a.m].request.registration, a.now).Ok?
  }

  /** Such a step takes its child from unfinalized and inactive to finalized and active. */
  ghost predicate FinalizeLands(s: System, a: Action)
    requires Finalizes(s, a) && Apply(s, a).Some?
  {
    var (t, t', child) := (s.t, Apply(s, a).value.t, s.mints[a.m].request.child);
    && child in t.provisionings && !t.provisionings[child].finalized && child in t.accounts && !t.accounts[child].active
    && child in t'.provisionings && t'.provisionings[child].finalized && child in t'.accounts
       && t'.accounts[child].active
    && s.mints[a.m].phase.prepared.registration == t.provisionings[child].registration
  }

  lemma InvariantTables(s: System)
    requires Invariant(s)
    ensures TablesInvariant(s.t)
  {}

  /** The other writers, and the steps of a mint that leave the tables alone. */
  lemma StepOthers(s: System, a: Action)
    requires Invariant(s) && Apply(s, a).Some? && !a.Prepare? && !a.RecordPublished? && !a.Finalize?
    ensures TablesKept(s, Apply(s, a).value)
  {
    hide FramesOf, AuditOf, SweepTables, ConfirmForOwner, TablesInvariant, RowsGrow;
    InvariantTables(s);
    var s' := Apply(s, a).value;
    match a
    case Sweep(at, due) => SweepKeeps(s.t, at, due);
    case ConfirmOwn(attempt, bind, confirmer, scopes, assertion, at) =>
      ConfirmKeeps(s.t, attempt, bind, confirmer, scopes, assertion, at);
    case Register(_, _) => OpeningKeeps(s, a);
    case StartClaim(_, _, _) => OpeningKeeps(s, a);
    case OpenAccount(_, _) => OpeningKeeps(s, a);
    case _ => SameTablesKept(s, s');
  }

  lemma StepTables(s: System, a: Action)
    requires Invariant(s) && Apply(s, a).Some?
    ensures TablesKept(s, Apply(s, a).value)
  {
    hide Invariant, Apply, TablesKept;
    if a.Prepare? {
      StepPrepare(s, a);
    } else if a.RecordPublished? {
      StepRecord(s, a);
    } else if a.Finalize? {
      StepFinalize(s, a);
    } else {
      StepOthers(s, a);
    }
  }

  lemma StepMints(s: System, a: Action, m: MintId)
    requires Invariant(s) && Apply(s, a).Some? && m in Apply(s, a).value.mints
    ensures MintHolds(Apply(s, a).value, Apply(s, a).value.mints[m])
  {
    var s' := Apply(s, a).value;
    StepTables(s, a);
    if m in s.mints {
      GrowthKeepsMint(s, s', s.mints[m]);
      if s'.mints[m] != s.mints[m] {
        StepOwnMint(s, a, m);
      }
    }
  }

  /** The mint that takes the step. */
  lemma StepOwnMint(s: System, a: Action, m: MintId)
    requires Invariant(s) && Apply(s, a).Some? && m in s.mints && m in Apply(s, a).value.mints
    requires Apply(s, a).value.mints[m] != s.mints[m]
    requires MintHolds(Apply(s, a).value, s.mints[m])
    ensures MintHolds(Apply(s, a).value, Apply(s, a).value.mints[m])
  {
    hide FramesOf, AuditOf, AttemptTrail, Keys, FinalizeChild, SweepTables, ConfirmForOwner, EmailTaken, EmailOf;
    if a.Resume? {
      assert ChildRows(s.t, s.mints[m].request.child);
    } else if a.Finalize? {
      FinalizedMint(s, a);
    }
    hide ChildRows;
  }

  lemma FinalizedMint(s: System, a: Action)
    requires Invariant(s) && a.Finalize? && Apply(s, a).Some? && a.m in Apply(s, a).value.mints
    requires MintHolds(Apply(s, a).value, s.mints[a.m])
    ensures MintHolds(Apply(s, a).value, Apply(s, a).value.mints[a.m])
  {
    hide FramesOf, AuditOf, FinalizeChild, ChildRows, AttemptTrail, Keys;
    StepFinalize(s, a);
    HeldChild(s, a.m);
    hide TablesKept;
  }

  lemma StepKeepsInvariant(s: System, a: Action)
    requires Invariant(s) && Apply(s, a).Some?
    ensures Invariant(Apply(s, a).value)
  {
    var s' := Apply(s, a).value;
    StepTables(s, a);
    forall m | m in s'.mints ensures MintHolds(s', s'.mints[m]) {
      StepMints(s, a, m);
    }
    forall d | d in s'.t.provisionings && s'.t.provisionings[d].published ensures d in s'.directory {
      StepPublishes(s, a, d);
    }
  }

  /** A row is only marked published once the directory has the operation. */
  lemma StepPublishes(s: System, a: Action, d: Did)
    requires Invariant(s) && Apply(s, a).Some?
    requires d in Apply(s, a).value.t.provisionings && Apply(s, a).value.t.provisionings[d].published
    ensures d in Apply(s, a).value.directory
  {
    hide FramesOf, AuditOf, ChildRows, AttemptTrail, Keys, EmailTaken, EmailOf;
    if a.RecordPublished? {
      assert MintHolds(s, s.mints[a.m]);
    }
  }

  lemma {:induction false} RunKeepsInvariant(actions: seq<Action>)
    requires Run(EMPTY, actions).Some?
    ensures Invariant(Run(EMPTY, actions).value)
    decreases |actions|
  {
    if actions != [] {
      RunKeepsInvariant(actions[..|actions| - 1]);
      StepKeepsInvariant(Run(EMPTY, actions[..|actions| - 1]).value, actions[|actions| - 1]);
    }
  }

  /**
   * Over every run: a child account is active exactly when its row is finalized; then plc.directory has its genesis,
   * its registration is claimed for it, and its two genesis frames are staged exactly once - and otherwise none is.
   */
  lemma ActiveChildIsComplete(actions: seq<Action>, s: System, d: Did)
    requires Run(EMPTY, actions) == Some(s) && d in s.t.provisionings
    ensures d in s.t.accounts && (s.t.accounts[d].active <==> s.t.provisionings[d].finalized)
    ensures s.t.accounts[d].active ==> d in s.directory && s.t.provisionings[d].published && RegistrationClaimed(s.t, d)
    ensures FramesOf(s.t.frames, d) == if s.t.accounts[d].active then GenesisFramesOf(s.t, d) else []
  {
    RunKeepsInvariant(actions);
    assert ChildRows(s.t, d);
  }

  /** Activation is one step: the committing finalize, which does everything else in the same transaction. */
  lemma ActivationIsAtomic(s: System, a: Action, d: Did)
    requires Invariant(s) && Apply(s, a).Some? && d in s.t.provisionings && d in Apply(s, a).value.t.accounts
    requires Apply(s, a).value.t.accounts[d].active && !s.t.provisionings[d].finalized
    ensures a.Finalize? && a.commits && s.mints[a.m].request.child == d
    ensures var t' := Apply(s, a).value.t;
            && t'.provisionings[d].finalized && RegistrationClaimed(t', d)
            && FramesOf(s.t.frames, d) == [] && FramesOf(t'.frames, d) == GenesisFramesOf(t', d)
  {
    hide FramesOf, AuditOf, PrepareChild, SweepTables, SavePublished;
    StepKeepsInvariant(s, a);
    assert ChildRows(s.t, d) && ChildRows(Apply(s, a).value.t, d);
    OnlyFinalizeActivates(s, a, d);
  }

  lemma OnlyFinalizeActivates(s: System, a: Action, d: Did)
    requires Invariant(s) && Apply(s, a).Some? && d in s.t.accounts && d in s.t.provisionings
    requires d in Apply(s, a).value.t.accounts && !s.t.accounts[d].active && Apply(s, a).value.t.accounts[d].active
    ensures a.Finalize? && a.commits && s.mints[a.m].request.child == d
  {
    hide Invariant, Apply, FinalizeChild;
    if a.Finalize? {
      FinalizeTables(s, a);
      if Finalizes(s, a) {
        var (p, r) := (s.mints[a.m].phase.prepared, s.mints[a.m].request);
        HeldChild(s, a.m);
        if d != p.child { FinalizeActivatesOne(s.t, p, r.registration, a.now, d); }
      }
    } else {
      OthersActivateNothing(s, a, d);
    }
  }

  lemma HeldChild(s: System, m: MintId)
    requires Invariant(s) && m in s.mints && s.mints[m].phase.Holding?
    ensures s.mints[m].phase.prepared.child == s.mints[m].request.child
  {
    hide FramesOf, AuditOf, ChildRows, AttemptTrail, Keys;
    assert MintHolds(s, s.mints[m]);
  }

  /** What a finalize does to the tables, committing or not. */
  lemma FinalizeTables(s: System, a: Action)
    requires a.Finalize? && Apply(s, a).Some?
    ensures a.m in s.mints && s.mints[a.m].phase.Holding?
    ensures Apply(s, a).value.t ==
              if Finalizes(s, a)
              then FinalizeChild(s.t, s.mints[a.m].phase.prepared, s.mints[a.m].request.registration, a.now).value
              else s.t
  {
    hide FinalizeChild;
  }

  lemma FinalizeActivatesOne(t: Tables, p: Prepared, registration: Registration, now: Time, d: Did)
    requires FinalizeChild(t, p, registration, now).Ok? && d in t.accounts && d != p.child
    ensures d in FinalizeChild(t, p, registration, now).value.accounts
    ensures FinalizeChild(t, p, registration, now).value.accounts[d] == t.accounts[d]
  {}

  lemma OthersActivateNothing(s: System, a: Action, d: Did)
    requires Apply(s, a).Some? && !a.Finalize? && d in s.t.accounts
    ensures d in Apply(s, a).value.t.accounts && Apply(s, a).value.t.accounts[d] == s.t.accounts[d]
  {
    hide FinalizeChild, LoadPrepared, EmailTaken, RowTaken, EmailOf;
  }

  // ---- claim attempts ----

  /** An attempt is left alone, or a pending one gets its outcome. */
  predicate AttemptMoves(t: Tables, t': Tables, id: AttemptId) {
    id in t.attempts ==>
      && id in t'.attempts
      && t'.attempts[id] == t.attempts[id].(outcome := t'.attempts[id].outcome)
      && (t.attempts[id].outcome != Pending ==>
         t'.attempts[id] == t.attempts[id] && AuditOf(t'.audit, id) == AuditOf(t.audit, id))
  }

  lemma SweepMoves(t: Tables, at: Time, due: seq<AttemptId>, id: AttemptId)
    requires Lists(t, at, due) && id in t.attempts
    ensures var t' := SweepTables(t, at, at, due);
            AttemptMoves(t, t', id) && t'.attempts[id].outcome in {t.attempts[id].outcome, Expired}
            && (t'.attempts[id] != t.attempts[id] ==> t.attempts[id].expires <= at)
  {
    hide AuditOf, ExpiryEvents;
    AuditConcat(t.audit, ExpiryEvents(t, due), id);
    ExpiryTrail(t, due, id);
  }

  lemma ConfirmMoves(t: Tables, attempt: AttemptId, bind: bool, confirmer: Did, scopes: string, assertion: string,
                     now: Time, id: AttemptId)
    requires ConfirmForOwner(t, attempt, bind, confirmer, scopes, assertion, now).Some? && id in t.attempts
    ensures var t' := ConfirmForOwner(t, attempt, bind, confirmer, scopes, assertion, now).value;
            AttemptMoves(t, t', id) && t'.attempts[id].outcome in {t.attempts[id].outcome, Completed}
            && (t'.attempts[id] != t.attempts[id] ==> id == attempt && now < t.attempts[id].expires)
  {
    AuditAppend(t.audit, ClaimConfirmed(t.attempts[attempt].identity, attempt, confirmer), id);
    hide AuditOf;
  }

  lemma FinalizeMoves(t: Tables, p: Prepared, registration: Registration, now: Time, id: AttemptId)
    requires FinalizeChild(t, p, registration, now).Ok? && id in t.attempts
    ensures var t' := FinalizeChild(t, p, registration, now).value;
            AttemptMoves(t, t', id) && t'.attempts[id].outcome in {t.attempts[id].outcome, Completed}
            && (t'.attempts[id] != t.attempts[id] ==>
                  registration.FromClaim? && registration.attempt == id && now < t.attempts[id].expires)
  {
    hide FramesOf;
    if registration.FromClaim? {
      AuditAppend(t.audit, ClaimConfirmed(p.registration, registration.attempt, registration.confirmer), id);
      hide AuditOf;
    }
  }

  /** Who may give a pending attempt its outcome. */
  ghost predicate Spender(s: System, a: Action, id: AttemptId, outcome: AttemptOutcome)
    requires id in s.t.attempts
  {
    match outcome
    case Pending => true
    case Expired => a.Sweep? && s.t.attempts[id].expires <= a.at
    case Completed => (a.ConfirmOwn? && a.attempt == id && a.at < s.t.attempts[id].expires) || FinalizingClaim(s, a, id)
  }

  /** One step leaves an attempt alone, or gives a pending one its outcome by the right writer. */
  lemma AttemptStep(s: System, a: Action, id: AttemptId)
    requires Invariant(s) && Apply(s, a).Some? && id in s.t.attempts
    ensures AttemptMoves(s.t, Apply(s, a).value.t, id)
    ensures Apply(s, a).value.t.attempts[id] != s.t.attempts[id] ==>
            Spender(s, a, id, Apply(s, a).value.t.attempts[id].outcome)
  {
    hide FramesOf, AuditOf, FinalizeChild, SweepTables, ConfirmForOwner, LoadPrepared;
    hide ChildRows, AttemptTrail, Keys, TablesKept;
    match a
    case Sweep(at, due) => SweepMoves(s.t, at, due, id);
    case ConfirmOwn(attempt, bind, confirmer, scopes, assertion, at) =>
      ConfirmMoves(s.t, attempt, bind, confirmer, scopes, assertion, at, id);
    case Finalize(m, now, commits) =>
      if Finalizes(s, a) {
        FinalizeMoves(s.t, s.mints[m].phase.prepared, s.mints[m].request.registration, now, id);
        StepFinalize(s, a);
      }
    case _ =>
  }

  /** The step is a mint's committing finalize, paid for by `id`, and it activates the mint's child. */
  ghost predicate FinalizingClaim(s: System, a: Action, id: AttemptId) {
    && Finalizes(s, a) && Apply(s, a).Some? && FinalizeLands(s, a)
    && s.mints[a.m].request.registration.FromClaim? && s.mints[a.m].request.registration.attempt == id
  }

  lemma {:induction false} AttemptRun(s: System, actions: seq<Action>, id: AttemptId)
    requires Invariant(s) && Run(s, actions).Some? && id in s.t.attempts && s.t.attempts[id].outcome != Pending
    ensures Invariant(Run(s, actions).value)
    ensures var t' := Run(s, actions).value.t;
            id in t'.attempts && t'.attempts[id] == s.t.attempts[id] && AuditOf(t'.audit, id) == AuditOf(s.t.audit, id)
    decreases |actions|
  {
    if actions != [] {
      var init := actions[..|actions| - 1];
      AttemptRun(s, init, id);
      AttemptStep(Run(s, init).value, actions[|actions| - 1], id);
      StepKeepsInvariant(Run(s, init).value, actions[|actions| - 1]);
    }
  }

  /** Over every run, an attempt gets at most one outcome and keeps it, with exactly one audit event to match. */
  lemma AttemptOutcomeIsFinal(before: seq<Action>, s: System, after: seq<Action>, s': System, id: AttemptId)
    requires Run(EMPTY, before) == Some(s) && Run(s, after) == Some(s') && id in s.t.attempts
    ensures s.t.attempts[id].outcome == Pending <==> AuditOf(s.t.audit, id) == []
    ensures s.t.attempts[id].outcome != Pending ==>
              && id in s'.t.attempts && s'.t.attempts[id] == s.t.attempts[id]
              && |AuditOf(s'.t.audit, id)| == 1 && AuditOf(s'.t.audit, id) == AuditOf(s.t.audit, id)
              && (s.t.attempts[id].outcome == Completed <==> AuditOf(s'.t.audit, id)[0].ClaimConfirmed?)
  {
    RunKeepsInvariant(before);
    assert AttemptTrail(s.t, id);
    if s.t.attempts[id].outcome != Pending {
      AttemptRun(s, after, id);
    }
  }

  // ---- who may resume ----

  /** A mint for a child already in flight under another parent or handle changes nothing, whatever it does. */
  lemma ConflictingMintChangesNothing(s: System, a: Action, m: MintId)
    requires Invariant(s) && Apply(s, a).Some? && m in s.mints && !a.Begin? && ApplyMint(s, m, a) == Apply(s, a)
    requires var r := s.mints[m].request;
             && r.child in s.t.provisionings
             && (s.t.provisionings[r.child].parent != r.parent || s.t.provisionings[r.child].handle != r.handle)
    ensures Apply(s, a).value.t == s.t && Apply(s, a).value.directory == s.directory
  {
    assert MintHolds(s, s.mints[m]);
    assert ChildRows(s.t, s.mints[m].request.child);
  }

  // ---- whose attempt a resume spends ----

  /** The confirming route passes an attempt together with its registration. */
  predicate OwnsAttempt(t: Tables, registration: Registration) {
    registration.FromClaim? ==>
      registration.attempt in t.attempts && t.attempts[registration.attempt].identity == registration.id
  }

  predicate HonestStep(s: System, a: Action) {
    a.Begin? ==> OwnsAttempt(s.t, a.request.registration)
  }

  /** Every request of the run names its own attempt's registration. */
  ghost predicate Honest(actions: seq<Action>) {
    Throughout(actions, HonestStep)
  }

  /** Every step of the run is taken in a state where `holds` allows it. */
  ghost predicate Throughout(actions: seq<Action>, holds: (System, Action) -> bool)
    decreases |actions|
  {
    actions == [] ||
    var (init, last) := (actions[..|actions| - 1], actions[|actions| - 1]);
    Throughout(init, holds) && (Run(EMPTY, init).Some? ==> holds(Run(EMPTY, init).value, last))
  }

  ghost predicate MintsOwn(s: System) {
    forall m :: m in s.mints ==> OwnsAttempt(s.t, s.mints[m].request.registration)
  }

  /** Every completed attempt was confirmed, in its one event, for the registration it belongs to. */
  ghost predicate ConfirmationsMatch(t: Tables) {
    forall a :: a in t.attempts && t.attempts[a].outcome == Completed ==> ConfirmedForOwner(t, a)
  }

  predicate ConfirmedForOwner(t: Tables, a: AttemptId)
    requires a in t.attempts
  {
    var trail := AuditOf(t.audit, a);
    |trail| == 1 && trail[0].ClaimConfirmed? && trail[0].registration == t.attempts[a].identity
  }

  /** A finalize commits for a stored row whose registration is not the one its claiming request names. */
  predicate Mismatched(s: System, a: Action) {
    && Finalizes(s, a) && s.mints[a.m].request.registration.FromClaim?
    && s.mints[a.m].phase.prepared.registration != s.mints[a.m].request.registration.id
  }

  ghost predicate NeverMismatched(actions: seq<Action>) {
    Throughout(actions, (s, a) => !Mismatched(s, a))
  }

  lemma StepKeepsOwn(s: System, a: Action)
    requires Invariant(s) && MintsOwn(s) && Apply(s, a).Some? && HonestStep(s, a)
    ensures MintsOwn(Apply(s, a).value)
  {
    var s' := Apply(s, a).value;
    forall m | m in s'.mints ensures OwnsAttempt(s'.t, s'.mints[m].request.registration) {
      var registration := s'.mints[m].request.registration;
      RequestsStay(s, a, m);
      if registration.FromClaim? {
        hide Apply, Invariant, AuditOf, Spender;
        AttemptStep(s, a, registration.attempt);
      }
    }
  }

  /** A mint in flight keeps its request; a new one has just begun. */
  lemma RequestsStay(s: System, a: Action, m: MintId)
    requires Apply(s, a).Some? && m in Apply(s, a).value.mints && HonestStep(s, a) && MintsOwn(s)
    ensures OwnsAttempt(s.t, Apply(s, a).value.mints[m].request.registration)
  {
    hide FinalizeChild, PrepareChild, SweepTables, ConfirmForOwner, SavePublished, LoadPrepared;
  }

  /** One attempt across one step. */
  lemma ConfirmationStep(s: System, a: Action, id: AttemptId)
    requires Invariant(s) && MintsOwn(s) && Apply(s, a).Some? && id in s.t.attempts
    ensures var t' := Apply(s, a).value.t;
            id in t'.attempts && t'.attempts[id].outcome == Completed ==>
              (ConfirmedForOwner(t', id) <==>
                if s.t.attempts[id].outcome == Completed then ConfirmedForOwner(s.t, id)
                else !(Mismatched(s, a) && s.mints[a.m].request.registration.attempt == id))
    ensures Mismatched(s, a) && s.mints[a.m].request.registration.attempt == id ==>
              s.t.attempts[id].outcome == Pending && id in Apply(s, a).value.t.attempts
              && Apply(s, a).value.t.attempts[id].outcome == Completed
  {
    hide FramesOf, AuditOf, Invariant;
    AttemptStep(s, a, id);
    PendingUnaudited(s, id);
    if a.Finalize? && Finalizes(s, a) && s.mints[a.m].request.registration.FromClaim? {
      FinalizeConfirms(s.t, s.mints[a.m].phase.prepared, s.mints[a.m].request.registration, a.now);
    } else if a.ConfirmOwn? {
      OwnerConfirms(s.t, a.attempt, a.bind, a.confirmer, a.scopes, a.assertion, a.at);
    }
    hide FinalizeChild, ConfirmForOwner, SweepTables, PrepareChild, SavePublished, FinalizeLands;
  }

  lemma PendingUnaudited(s: System, id: AttemptId)
    requires Invariant(s) && id in s.t.attempts
    ensures s.t.attempts[id].outcome == Pending ==> AuditOf(s.t.audit, id) == []
  {
    hide AuditOf;
    assert AttemptTrail(s.t, id);
  }

  lemma FinalizeConfirms(t: Tables, p: Prepared, registration: Registration, now: Time)
    requires registration.FromClaim? && FinalizeChild(t, p, registration, now).Ok?
    ensures var (t', id) := (FinalizeChild(t, p, registration, now).value, registration.attempt);
            && id in t.attempts && t.attempts[id].outcome == Pending
            && t'.attempts == t.attempts[id := t.attempts[id].(outcome := Completed)]
            && AuditOf(t'.audit, id) == AuditOf(t.audit, id)
               + [ClaimConfirmed(p.registration, id, registration.confirmer)]
  {
    AuditAppend(t.audit, ClaimConfirmed(p.registration, registration.attempt, registration.confirmer),
      registration.attempt);
    hide AuditOf;
  }

  lemma OwnerConfirms(t: Tables, id: AttemptId, bind: bool, confirmer: Did, scopes: string, assertion: string,
                      now: Time)
    requires ConfirmForOwner(t, id, bind, confirmer, scopes, assertion, now).Some?
    ensures var t' := ConfirmForOwner(t, id, bind, confirmer, scopes, assertion, now).value;
            && id in t.attempts && t'.attempts == t.attempts[id := t.attempts[id].(outcome := Completed)]
            && AuditOf(t'.audit, id) == AuditOf(t.audit, id) + [ClaimConfirmed(t.attempts[id].identity, id, confirmer)]
  {
    AuditAppend(t.audit, ClaimConfirmed(t.attempts[id].identity, id, confirmer), id);
    hide AuditOf;
  }

  /** The owner's confirm takes a live attempt and an active registration, without an owner if it is to be bound. */
  lemma OwnerConfirmsIff(t: Tables, id: AttemptId, bind: bool, confirmer: Did, scopes: string, assertion: string,
                         now: Time)
    ensures var r := ConfirmForOwner(t, id, bind, confirmer, scopes, assertion, now);
            r.Some? <==>
              && id in t.attempts && t.attempts[id].outcome == Pending && now < t.attempts[id].expires
              && var registration := t.attempts[id].identity;
                 && registration in t.identities && t.identities[registration].status == Active
                 && (bind ==> t.identities[registration].did == None)
    ensures var r := ConfirmForOwner(t, id, bind, confirmer, scopes, assertion, now);
            r.Some? ==>
              var registration := t.attempts[id].identity;
              var (before, after) := (t.identities[registration], r.value.identities[registration]);
              && after.status == Claimed && after.did == (if bind then Some(confirmer) else before.did)
              && after.scopes == scopes && after.assertion == assertion
              && after.kind == before.kind && after.parent == before.parent
              && r.value.accounts == t.accounts && r.value.provisionings == t.provisionings
              && r.value.frames == t.frames
  {}

  lemma StepConfirms(s: System, a: Action)
    requires Invariant(s) && MintsOwn(s) && Apply(s, a).Some?
    ensures ConfirmationsMatch(Apply(s, a).value.t) <==> ConfirmationsMatch(s.t) && !Mismatched(s, a)
  {
    hide ConfirmedForOwner, Invariant, Apply;
    var t' := Apply(s, a).value.t;
    forall id | id in s.t.attempts && s.t.attempts[id].outcome == Completed
      ensures id in t'.attempts && t'.attempts[id].outcome == Completed
      ensures ConfirmedForOwner(t', id) <==> ConfirmedForOwner(s.t, id)
    {
      AttemptStep(s, a, id);
      ConfirmationStep(s, a, id);
    }
    forall id | id in t'.attempts && t'.attempts[id].outcome == Completed
      && !(id in s.t.attempts && s.t.attempts[id].outcome == Completed)
      ensures id in s.t.attempts
      ensures ConfirmedForOwner(t', id) <==> !(Mismatched(s, a) && s.mints[a.m].request.registration.attempt == id)
    {
      if id in s.t.attempts {
        ConfirmationStep(s, a, id);
      } else {
        NewAttemptsPending(s, a, id);
      }
    }
    if Mismatched(s, a) {
      MismatchOwns(s, a);
      ConfirmationStep(s, a, s.mints[a.m].request.registration.attempt);
    }
  }

  lemma NewAttemptsPending(s: System, a: Action, id: AttemptId)
    requires Apply(s, a).Some? && id in Apply(s, a).value.t.attempts && id !in s.t.attempts
    ensures Apply(s, a).value.t.attempts[id].outcome == Pending
  {}

  lemma MismatchOwns(s: System, a: Action)
    requires MintsOwn(s) && Mismatched(s, a)
    ensures s.mints[a.m].request.registration.attempt in s.t.attempts
  {}

  lemma {:induction false} HonestRunOwns(actions: seq<Action>)
    requires Run(EMPTY, actions).Some? && Honest(actions)
    ensures Invariant(Run(EMPTY, actions).value) && MintsOwn(Run(EMPTY, actions).value)
    ensures ConfirmationsMatch(Run(EMPTY, actions).value.t) <==> NeverMismatched(actions)
    decreases |actions|
  {
    hide Invariant, Apply, Mismatched, HonestStep;
    RunKeepsInvariant(actions);
    if actions != [] {
      var (init, last) := (actions[..|actions| - 1], actions[|actions| - 1]);
      HonestRunOwns(init);
      hide MintsOwn, ConfirmationsMatch;
      StepKeepsOwn(Run(EMPTY, init).value, last);
      StepConfirms(Run(EMPTY, init).value, last);
    }
  }

  /**
   * Nothing compares a resuming request's registration with the stored one. Over every run in which each claiming
   * request names its own attempt's registration, every completed attempt's one event confirms it for the registration
   * it belongs to, if and only if no finalize ever committed for a row stored for another registration.
   */
  lemma ConfirmationsMatchIff(actions: seq<Action>, s: System)
    requires Run(EMPTY, actions) == Some(s) && Honest(actions)
    ensures ConfirmationsMatch(s.t) <==> NeverMismatched(actions)
  {
    HonestRunOwns(actions);
  }

  /** Appends one action to an honest run. */
  lemma ExtendHonest(actions: seq<Action>, s: System, a: Action) returns (longer: seq<Action>, s': System)
    requires Run(EMPTY, actions) == Some(s) && Honest(actions) && Apply(s, a).Some? && HonestStep(s, a)
    ensures longer == actions + [a] && s' == Apply(s, a).value && Run(EMPTY, longer) == Some(s') && Honest(longer)
  {
    longer, s' := actions + [a], Apply(s, a).value;
    assert longer[..|actions|] == actions;
  }

  const PARENT: Account := Account("owner@example.com", "", "", true)
  const OPEN: Identity := Identity(None, None, Anonymous, Active, "", "")

  /** A mint of "child" for "parent", claiming `registration` with `attempt`. */
  function ClaimingRequest(registration: RegistrationId, attempt: AttemptId): Request {
    Request("parent", "handle", "child", FromClaim(registration, attempt, "parent"), "", "", "", "", "", "", "")
  }

  /** Two registrations with a claim attempt each; a mint for the first one records its publication and crashes. */
  lemma PublishedThenCrashed() returns (actions: seq<Action>, s: System)
    ensures Run(EMPTY, actions) == Some(s) && Honest(actions) && s.mints == map[]
    ensures "child" in s.t.accounts && s.t == AfterPrepare(s.t.accounts, true)
  {
    hide Run, Honest, LoadPrepared, FinalizeChild, ConfirmForOwner, Lists, PrepareChild;
    actions, s := PreparedForFirst();
    actions, s := ExtendHonest(actions, s, Publish(0, true, true));
    actions, s := ExtendHonest(actions, s, RecordPublished(0, Done));
    actions, s := ExtendHonest(actions, s, Action.Crash(0));
  }

  /** The tables of the two registrations with the first one's child prepared. */
  function AfterPrepare(accounts: map<Did, Account>, published: bool): Tables {
    Tables(accounts, map["handle" := "child"],
           map["child" := RowOf(ClaimingRequest("first", "x")).(published := published)],
           map["first" := OPEN, "second" := OPEN],
           map["x" := Attempt("first", 1, Pending), "yy" := Attempt("second", 1, Pending)], [], [])
  }

  lemma PreparedForFirst() returns (actions: seq<Action>, s: System)
    ensures Run(EMPTY, actions) == Some(s) && Honest(actions)
    ensures "child" in s.t.accounts && s.t == AfterPrepare(s.t.accounts, false)
    ensures var r := ClaimingRequest("first", "x");
            s.mints == map[0 := Mint(r, Holding(PREPARED, PreparedOf(r)))]
  {
    hide Run, Honest, LoadPrepared, FinalizeChild, ConfirmForOwner, Lists;
    assert |"first"| != |"second"| && |"x"| != |"yy"| && |"child"| != |"parent"|;
    var r := ClaimingRequest("first", "x");
    assert EmailOf("first") != PARENT.email by { assert EmailOf("first")[0] != PARENT.email[0]; }
    actions, s := OpenedForTwo();
    actions, s := ExtendHonest(actions, s, Begin(0, r));
    actions, s := ExtendHonest(actions, s, Resume(0));
    actions, s := ExtendHonest(actions, s, Prepare(0, true));
  }

  lemma OpenedForTwo() returns (actions: seq<Action>, s: System)
    ensures Run(EMPTY, actions) == Some(s) && Honest(actions)
    ensures s == System(Tables(map["parent" := PARENT], map[], map[], map["first" := OPEN, "second" := OPEN],
                               map["x" := Attempt("first", 1, Pending), "yy" := Attempt("second", 1, Pending)], [], []),
                        {}, map[])
  {
    assert |"first"| != |"second"| && |"x"| != |"yy"|;
    actions, s := [], EMPTY;
    actions, s := ExtendHonest(actions, s, OpenAccount("parent", PARENT));
    actions, s := ExtendHonest(actions, s, Register("first", OPEN));
    actions, s := ExtendHonest(actions, s, Register("second", OPEN));
    actions, s := ExtendHonest(actions, s, StartClaim("x", "first", 1));
    actions, s := ExtendHonest(actions, s, StartClaim("yy", "second", 1));
  }

  lemma ReloadedForSecond() returns (actions: seq<Action>, s: System)
    ensures Run(EMPTY, actions) == Some(s) && Honest(actions)
    ensures "child" in s.t.accounts && s.t == AfterPrepare(s.t.accounts, true)
    ensures LoadPrepared(s.t, ClaimingRequest("second", "yy")).Ok?
    ensures var r := ClaimingRequest("second", "yy");
            s.mints == map[1 := Mint(r, Holding(PUBLISHED, LoadPrepared(s.t, r).value))]
    ensures LoadPrepared(s.t, ClaimingRequest("second", "yy")).value.registration == "first"
    ensures LoadPrepared(s.t, ClaimingRequest("second", "yy")).value.child == "child"
  {
    hide Run, Honest, PrepareChild, SavePublished, ConfirmForOwner, Lists, FinalizeChild;
    assert |"first"| != |"second"| && |"x"| != |"yy"|;
    actions, s := PublishedThenCrashed();
    actions, s := ExtendHonest(actions, s, Begin(1, ClaimingRequest("second", "yy")));
    actions, s := ExtendHonest(actions, s, Resume(1));
    actions, s := ExtendHonest(actions, s, Reload(1));
  }

  /** A resume with the second registration's attempt is then accepted: it confirms the first one and is spent. */
  lemma ForeignAttemptRun() returns (actions: seq<Action>, s: System)
    ensures Run(EMPTY, actions) == Some(s) && Honest(actions) && !ConfirmationsMatch(s.t)
    ensures s.t.attempts == map["x" := Attempt("first", 1, Pending), "yy" := Attempt("second", 1, Completed)]
    ensures s.t.audit == [ClaimConfirmed("first", "yy", "parent")]
    ensures s.t.identities["first" := OPEN] == map["first" := OPEN, "second" := OPEN]
    ensures "child" in s.t.accounts && s.t.accounts["child"].active
  {
    hide Run, Honest, PrepareChild, SavePublished, ConfirmForOwner, Lists, LoadPrepared;
    assert |"first"| != |"second"| && |"x"| != |"yy"|;
    actions, s := ReloadedForSecond();
    actions, s := ExtendHonest(actions, s, Finalize(1, 0, true));
    assert AuditOf(s.t.audit, "yy") == AuditOf(s.t.audit[..0], "yy") + s.t.audit;
    assert !ConfirmedForOwner(s.t, "yy");
  }

  // ---- the sweep reads the clock twice ----

  /**
   * The listing and the flip of one sweep each read the clock. Every transition is audited exactly when no pending
   * attempt lapses between the two readings (or the list is empty, so nothing is flipped).
   */
  lemma SweepAuditsAllIff(t: Tables, listed: Time, flipped: Time, due: seq<AttemptId>)
    requires TablesInvariant(t) && Lists(t, listed, due) && listed <= flipped
    ensures (forall a :: AttemptTrail(SweepTables(t, listed, flipped, due), a))
            <==> due == [] || forall a :: a in t.attempts && t.attempts[a].outcome == Pending ==>
              !(listed < t.attempts[a].expires <= flipped)
  {
    hide AuditOf;
    var t' := SweepTables(t, listed, flipped, due);
    if a :| due != [] && a in t.attempts && t.attempts[a].outcome == Pending &&
            listed < t.attempts[a].expires <= flipped
    {
      assert AttemptTrail(t, a);
      AuditConcat(t.audit, ExpiryEvents(t, due), a);
      ExpiryTrail(t, due, a);
      assert !AttemptTrail(t', a);
    } else if due != [] {
      SweepKeeps(t, listed, due);
      assert ExpireLapsed(t, listed).attempts == ExpireLapsed(t, flipped).attempts;
    } else {
      forall a ensures AttemptTrail(t', a) { assert AttemptTrail(t, a); }
    }
  }

  /** An attempt lapsing between the readings expires without a trace when another one was due. */
  lemma SilentExpiryExample() returns (t: Tables, due: seq<AttemptId>)
    ensures TablesInvariant(t) && Lists(t, 5, due) && !AttemptTrail(SweepTables(t, 5, 6, due), "b")
  {
    var open := Identity(None, None, Anonymous, Active, "", "");
    t := Tables(map[], map[], map[], map["r" := open],
      map["a" := Attempt("r", 5, Pending), "b" := Attempt("r", 6, Pending)], [], []);
    due := ["a"];
    assert "a" != "b" by { assert "a"[0] != "b"[0]; }
    ExpiryTrail(t, due, "b");
    AuditConcat(t.audit, ExpiryEvents(t, due), "b");
  }

  // ---- resuming gets there ----

  lemma RunAppend(s: System, actions: seq<Action>, a: Action)
    ensures Run(s, actions + [a]) == var r := Run(s, actions); if r.None? then None else Apply(r.value, a)
  {
    assert (actions + [a])[..|actions|] == actions;
  }

  /** The registration half of a finalize looks only at registrations and attempts. */
  lemma ClaimIgnoresMarks(t: Tables, child: Did, p: Prepared, registration: Registration, now: Time)
    ensures ClaimRegistration(SavePublished(t, child), p, registration, now).Ok?
            <==> ClaimRegistration(t, p, registration, now).Ok?
  {}

  /** A retry that nothing interrupts, up to the recorded publication. */
  lemma RetryPublishes(s: System, m: MintId, r: Request) returns (actions: seq<Action>)
    requires m !in s.mints && r.child != r.parent
    requires LoadPrepared(s.t, r).Ok? && r.child in s.t.provisionings && !s.t.provisionings[r.child].finalized
    ensures var t := if s.t.provisionings[r.child].published then s.t else SavePublished(s.t, r.child);
            && Run(s, actions).Some?
            && Run(s, actions).value.t == t
            && Run(s, actions).value.mints == s.mints[m := Mint(r, Holding(PUBLISHED, LoadPrepared(s.t, r).value))]
  {
    var published := s.t.provisionings[r.child].published;
    assert Run(s, []) == Some(s);
    RunAppend(s, [], Begin(m, r));
    RunAppend(s, [] + [Begin(m, r)], Resume(m));
    actions := [] + [Begin(m, r)] + [Resume(m)];
    RunAppend(s, actions, Reload(m));
    actions := actions + [Reload(m)];
    if !published {
      RunAppend(s, actions, Publish(m, true, true));
      actions := actions + [Publish(m, true, true)];
      RunAppend(s, actions, RecordPublished(m, Done));
      actions := actions + [RecordPublished(m, Done)];
    }
  }

  lemma FinalizeActivates(t: Tables, p: Prepared, registration: Registration, now: Time)
    requires p.child in t.accounts && ClaimRegistration(t, p, registration, now).Ok?
    ensures FinalizeChild(t, p, registration, now).Ok?
    ensures var t' := FinalizeChild(t, p, registration, now).value;
            p.child in t'.accounts && t'.accounts[p.child].active
  {}

  /** An identical retry that nothing interrupts carries an unfinished child through to activation. */
  lemma RetryActivates(s: System, m: MintId, r: Request, now: Time) returns (actions: seq<Action>)
    requires Invariant(s) && m !in s.mints && r.child != r.parent
    requires LoadPrepared(s.t, r).Ok? && r.child in s.t.provisionings && !s.t.provisionings[r.child].finalized
    requires ClaimRegistration(s.t, LoadPrepared(s.t, r).value, r.registration, now).Ok?
    ensures Run(s, actions).Some? && Invariant(Run(s, actions).value)
    ensures r.child in Run(s, actions).value.t.accounts && Run(s, actions).value.t.accounts[r.child].active
  {
    hide FramesOf, AuditOf, ClaimRegistration, TablesInvariant, Invariant, FinalizeChild;
    var p := LoadPrepared(s.t, r).value;
    actions := RetryPublishes(s, m, r);
    var s1 := Run(s, actions).value;
    ClaimIgnoresMarks(s.t, r.child, p, r.registration, now);
    FinalizeActivates(s1.t, p, r.registration, now);
    RunAppend(s, actions, Finalize(m, now, true));
    actions := actions + [Finalize(m, now, true)];
    RunInvariantFrom(s, actions);
  }

  lemma {:induction false} RunInvariantFrom(s: System, actions: seq<Action>)
    requires Invariant(s) && Run(s, actions).Some?
    ensures Invariant(Run(s, actions).value)
    decreases |actions|
  {
    if actions != [] {
      RunInvariantFrom(s, actions[..|actions| - 1]);
      StepKeepsInvariant(Run(s, actions[..|actions| - 1]).value, actions[|actions| - 1]);
    }
  }
}

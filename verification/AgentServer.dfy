/** The mint core and the claim sweep as the server runs them: statements that update the tables in place. */
module AgentServer {
  import opened Wrappers
  import CeremonyJournal
  import opened AgentTables
  import opened ChildMint
  import opened MintOutcome

  class Server {
    var accounts: map<Did, Account>
    var handles: map<string, Did>
    var provisionings: map<Did, Provisioning>
    var identities: map<RegistrationId, Identity>
    var attempts: map<AttemptId, Attempt>
    var frames: seq<Frame>
    var audit: seq<Audit>
    var directory: set<Did>

    constructor ()
      ensures State() == EMPTY
    {
      accounts, handles, provisionings, identities := map[], map[], map[], map[];
      attempts, frames, audit, directory := map[], [], [], {};
    }

    function T(): Tables
      reads this
    {
      Tables(accounts, handles, provisionings, identities, attempts, frames, audit)
    }

    /** The server between requests. */
    function State(): System
      reads this
    {
      System(T(), directory, map[])
    }

    method PrepareTx(r: Request, commits: bool) returns (res: Result<Prepared, MintError>)
      modifies this
      ensures directory == old(directory)
      ensures var spec := PrepareChild(old(T()), r);
              && T() == (if spec.Ok? && commits then spec.value else old(T()))
              && res == if spec.Err? then Err(spec.error) else if commits then Ok(PreparedOf(r)) else Err(InternalError)
    {
      var email := EmailOf(r.registration.id);
      if r.child in accounts || EmailTaken(T(), email) {
        return Err(DidAlreadyExists);
      }
      if r.handle in handles {
        return Err(HandleTaken);
      }
      if RowTaken(T(), r) || r.parent !in accounts || !commits {
        return Err(InternalError);
      }
      accounts := accounts[r.child := Account(email, r.root, r.rev, false)];
      handles := handles[r.handle := r.child];
      provisionings := provisionings[r.child := RowOf(r)];
      return Ok(PreparedOf(r));
    }

    /**
     * `publish_child_genesis`: nothing is posted when the lookup, which need not succeed, finds the operation there; a
     * post that fails may still have reached plc.directory.
     */
    method PublishGenesis(p: Prepared, finds: bool, post: CeremonyJournal.Outcome) returns (ok: bool)
      modifies this
      ensures T() == old(T())
      ensures ok <==> post.Done? || (finds && p.child in old(directory))
      ensures ok ==> directory == old(directory) + {p.child}
      ensures !ok ==> directory == if post.landed then old(directory) + {p.child} else old(directory)
    {
      if finds && p.child in directory {
        return true;
      }
      if post.Done? || post.landed {
        directory := directory + {p.child};
      }
      return post.Done?;
    }

    method SavePublishedRow(child: Did, outcome: CeremonyJournal.Outcome) returns (ok: bool)
      modifies this
      ensures directory == old(directory)
      ensures ok == outcome.Done?
      ensures T() == if outcome.Done? || outcome.landed then SavePublished(old(T()), child) else old(T())
    {
      if (outcome.Done? || outcome.landed) && child in provisionings {
        provisionings := provisionings[child := provisionings[child].(published := true)];
      }
      return outcome.Done?;
    }

    method FinalizeTx(p: Prepared, registration: Registration, now: Time,
                      commits: bool) returns (res: Result<(), MintError>)
      modifies this
      ensures directory == old(directory)
      ensures var spec := FinalizeChild(old(T()), p, registration, now);
              && T() == (if spec.Ok? && commits then spec.value else old(T()))
              && res == if spec.Err? then Err(spec.error) else if commits then Ok(()) else Err(InternalError)
    {
      match registration {
        case New(_) =>
          if p.registration in identities {
            return Err(InternalError);
          }
          if !commits {
            return Err(InternalError);
          }
        case FromClaim(_, attempt, confirmer) =>
          if !CanComplete(T(), attempt, now) {
            return Err(InvalidClaim);
          }
          if !CanConvert(T(), p.registration) {
            return Err(InvalidClaim);
          }
          if !commits {
            return Err(InternalError);
          }
          attempts := attempts[attempt := attempts[attempt].(outcome := Completed)];
          audit := audit + [ClaimConfirmed(p.registration, attempt, confirmer)];
      }
      identities := identities[p.registration := ChildIdentity(p)];
      frames := frames + GenesisFrames(p);
      if p.child in accounts {
        accounts := accounts[p.child := accounts[p.child].(active := true)];
      }
      if p.child in provisionings && provisionings[p.child].published {
        provisionings := provisionings[p.child := provisionings[p.child].(finalized := true)];
      }
      return Ok(());
    }

    /** The server with one mint in hand. */
    ghost function Holding(r: Request, cursor: nat, p: Prepared): System
      reads this
    {
      State().(mints := map[0 := Mint(r, Phase.Holding(cursor, p))])
    }

    /** The server with one mint that has loaded its cursor. */
    ghost function Loaded(r: Request): System
      reads this
    {
      State().(mints := map[0 := Mint(r, Resumed(LoadCursor(T(), r.child)))])
    }

    /** A first mint prepares the child. */
    method PrepareFresh(r: Request, commits: bool, ghost s0: System, ghost before: seq<Action>)
      returns (res: Result<(nat, Prepared), MintError>, ghost actions: seq<Action>)
      requires Run(s0, before) == Some(Loaded(r)) && LoadCursor(T(), r.child).None?
      modifies this
      ensures PrepareStep(old(T()), T(), r, commits, res) && directory == old(directory)
      ensures Run(s0, actions) == Some(if res.Ok? then Holding(r, res.value.0, res.value.1) else State())
    {
      hide PrepareChild;
      ghost var s := Loaded(r);
      var tx := PrepareTx(r, commits);
      actions, s := Extend(s0, before, s, Prepare(0, commits));
      assert s.mints == if tx.Err? then map[] else map[0 := Mint(r, Phase.Holding(PREPARED, tx.value))];
      res := if tx.Err? then Err(tx.error) else Ok((PREPARED, tx.value));
    }

    /** A later one reloads what was prepared. */
    method ReloadPrepared(r: Request, cursor: nat, ghost s0: System, ghost before: seq<Action>)
      returns (res: Result<(nat, Prepared), MintError>, ghost actions: seq<Action>)
      requires Run(s0, before) == Some(Loaded(r)) && LoadCursor(T(), r.child) == Some(cursor)
      ensures res == ReloadStep(T(), r, cursor)
      ensures Run(s0, actions) == Some(if res.Ok? then Holding(r, res.value.0, res.value.1) else State())
    {
      hide LoadPrepared;
      ghost var s := Loaded(r);
      var loaded := LoadPrepared(T(), r);
      actions, s := Extend(s0, before, s, Reload(0));
      assert s.mints == if loaded.Err? then map[] else map[0 := Mint(r, Phase.Holding(cursor, loaded.value))];
      res := if loaded.Err? then Err(loaded.error) else Ok((cursor, loaded.value));
    }

    /** The first step: resume the journal, then prepare afresh or reload what an earlier mint prepared. */
    method ObtainPrepared(r: Request, commits: bool) returns (res: Result<(nat, Prepared), MintError>,
                          ghost actions: seq<Action>)
      requires r.child != r.parent
      modifies this
      ensures directory == old(directory)
      ensures var cursor := LoadCursor(old(T()), r.child);
              if cursor.None? then PrepareStep(old(T()), T(), r, commits, res)
              else T() == old(T()) && res == ReloadStep(T(), r, cursor.value)
      ensures Run(old(State()), actions) == Some(if res.Ok? then Holding(r, res.value.0, res.value.1) else State())
    {
      ghost var s0, s := State(), State();
      actions := [];
      actions, s := Extend(s0, actions, s, Begin(0, r));
      var cursor := LoadCursor(T(), r.child);
      actions, s := Extend(s0, actions, s, Resume(0));
      assert s.mints == Loaded(r).mints;
      hide Apply, Run, LoadCursor;
      if cursor.None? {
        res, actions := PrepareFresh(r, commits, s0, actions);
      } else {
        res, actions := ReloadPrepared(r, cursor.value, s0, actions);
      }
    }

    /** The journal's record of a publication that was answered. */
    method RecordPublication(r: Request, cursor: nat, p: Prepared, save: CeremonyJournal.Outcome, ghost s0: System,
                             ghost before: seq<Action>)
      returns (res: Result<nat, MintError>, ghost actions: seq<Action>)
      requires Run(s0, before) == Some(State().(mints := map[0 := Mint(r, Phase.Posted(cursor, p))]))
      modifies this
      ensures directory == old(directory)
      ensures T() == if save.Done? || save.landed then SavePublished(old(T()), p.child) else old(T())
      ensures res == if save.Failed? then Err(InternalError) else Ok(PUBLISHED)
      ensures Run(s0, actions) == Some(if res.Ok? then Holding(r, res.value, p) else State())
    {
      hide SavePublished;
      ghost var s := State().(mints := map[0 := Mint(r, Phase.Posted(cursor, p))]);
      var ok := SavePublishedRow(p.child, save);
      actions, s := Extend(s0, before, s, RecordPublished(0, save));
      assert s.mints == if ok then map[0 := Mint(r, Phase.Holding(PUBLISHED, p))] else map[];
      return if ok then Ok(PUBLISHED) else Err(InternalError), actions;
    }

    /** `run(Published, ...)`. */
    method RunPublished(r: Request, cursor: nat, p: Prepared, w: Weather, ghost s0: System, ghost before: seq<Action>)
      returns (res: Result<nat, MintError>, ghost actions: seq<Action>)
      requires Run(s0, before) == Some(Holding(r, cursor, p))
      modifies this
      ensures PublishStep(old(T()), T(), old(directory), directory, cursor, p, w, res)
      ensures Run(s0, actions) == Some(if res.Ok? then Holding(r, res.value, p) else State())
      ensures res.Ok? ==> CeremonyJournal.Reaches(Some(res.value), PUBLISHED)
    {
      hide SavePublished;
      actions := before;
      if CeremonyJournal.Reaches(Some(cursor), PUBLISHED) {
        return Ok(cursor), actions;
      }
      ghost var s := Holding(r, cursor, p);
      var ok := PublishGenesis(p, w.finds, w.publish);
      actions, s := Extend(s0, actions, s, Publish(0, ok, w.publish.Failed? && w.publish.landed));
      if !ok {
        assert s.mints == map[];
        return Err(PlcDirectoryError), actions;
      }
      assert s.mints == map[0 := Mint(r, Phase.Posted(cursor, p))];
      res, actions := RecordPublication(r, cursor, p, w.save, s0, actions);
    }

    /** `run(Finalized, ...)`. */
    method RunFinalized(r: Request, cursor: nat, p: Prepared, now: Time, commits: bool, ghost s0: System,
                        ghost before: seq<Action>)
      returns (res: Result<nat, MintError>, ghost actions: seq<Action>)
      requires Run(s0, before) == Some(Holding(r, cursor, p)) && CeremonyJournal.Reaches(Some(cursor), PUBLISHED)
      modifies this
      ensures directory == old(directory) && FinalizeStep(old(T()), T(), cursor, p, r.registration, now, commits, res)
      ensures Run(s0, actions) == Some(if res.Ok? then Holding(r, res.value, p) else State())
      ensures res.Ok? ==> CeremonyJournal.Reaches(Some(res.value), FINALIZED)
    {
      hide FinalizeChild;
      actions := before;
      if CeremonyJournal.Reaches(Some(cursor), FINALIZED) {
        return Ok(cursor), actions;
      }
      ghost var s := Holding(r, cursor, p);
      var done := FinalizeTx(p, r.registration, now, commits);
      actions, s := Extend(s0, actions, s, Finalize(0, now, commits));
      assert s.mints == if done.Err? then map[] else map[0 := Mint(r, Phase.Holding(FINALIZED, p))];
      return if done.Err? then Err(done.error) else Ok(FINALIZED), actions;
    }

    /**
     * `mint_child_account` from its journal on. Whatever the weather, it does what a run of mint steps does, so the
     * invariant of every run holds after it, and it answers and leaves behind what `MintOutcome` says.
     */
    method MintChildAccount(r: Request, w: Weather, now: Time)
      returns (res: Result<Prepared, MintError>, ghost actions: seq<Action>)
      requires Invariant(State())
      modifies this
      ensures Run(old(State()), actions).Some?
      ensures Run(old(State()), actions).value.t == T() && Run(old(State()), actions).value.directory == directory
      ensures Invariant(State())
      ensures res.Ok? ==> r.child in accounts && accounts[r.child].active && r.child in directory
      ensures res == Answer(old(T()), old(directory), r, w, now)
      ensures T() == TablesLeft(old(T()), old(directory), r, w, now)
      ensures directory == DirectoryLeft(old(T()), old(directory), r, w)
    {
      hide Apply, Invariant, Answer, TablesLeft, DirectoryLeft, PrepareStep, ReloadStep, PublishStep, FinalizeStep;
      ghost var s0 := State();
      actions := [];
      RowsPlaced(s0, r.child);
      if r.child == r.parent {
        MintStops(s0.t, s0.directory, r, w, now);
        return Err(InvalidClaim), actions;
      }
      var obtained;
      obtained, actions := ObtainPrepared(r, w.prepareCommits);
      KeepsWhenRun(s0, actions, State());
      Obtains(s0.t, T(), s0.directory, r, w, obtained);
      if obtained.Err? {
        MintStops(s0.t, s0.directory, r, w, now);
        return Err(obtained.error), actions;
      }
      var (cursor, p) := obtained.value;
      var step;
      step, actions := RunPublished(r, cursor, p, w, s0, actions);
      KeepsWhenRun(s0, actions, State());
      ghost var t2 := T();
      Publishes(s0.t, t2, s0.directory, directory, r, w, now, step);
      if step.Err? {
        return Err(step.error), actions;
      }
      var published := step.value;
      step, actions := RunFinalized(r, published, p, now, w.finalizeCommits, s0, actions);
      KeepsWhenRun(s0, actions, State());
      FinalizesLast(s0.t, t2, T(), s0.directory, r, w, now, published, step);
      if step.Err? {
        return Err(step.error), actions;
      }
      HeldIsActive(s0, actions, 0);
      return Ok(p), actions;
    }

    /** `expired_pending_claim_attempts`, in whatever order the rows come. */
    method ListDue(now: Time) returns (due: seq<AttemptId>)
      ensures Lists(T(), now, due)
    {
      due := [];
      var rest := set a | a in attempts && Due(T(), a, now);
      while rest != {}
        invariant forall a :: Due(T(), a, now) <==> a in due || a in rest
        invariant forall a :: a in due ==> a !in rest
        invariant forall i, j :: 0 <= i < j < |due| ==> due[i] != due[j]
      {
        var a :| a in rest;
        due, rest := due + [a], rest - {a};
      }
    }

    /** One `claim_expired` audit row per listed attempt. */
    method AuditExpiries(due: seq<AttemptId>)
      requires forall a :: a in due ==> a in attempts && attempts[a].identity in identities
      modifies this`audit
      ensures audit == old(audit) + ExpiryEvents(old(T()), due)
    {
      ghost var before := T();
      for i := 0 to |due|
        invariant audit == before.audit + ExpiryEvents(before, due)[..i]
      {
        assert due[i] in due;
        var row := attempts[due[i]];
        audit := audit + [ClaimExpired(row.identity, due[i], identities[row.identity].did)];
      }
      assert ExpiryEvents(before, due)[..|due|] == ExpiryEvents(before, due);
    }

    /** `expire_pending_agent_claim_attempts`. */
    method ExpireAttempts(now: Time)
      modifies this`attempts
      ensures T() == ExpireLapsed(old(T()), now)
    {
      attempts := map a | a in attempts ::
        if Lapsed(T(), a, now) then attempts[a].(outcome := Expired) else attempts[a];
    }

    /** One pass of the claim sweep: list what is due, flip it, audit each row, all in one transaction. */
    method SweepClaims(now: Time) returns (due: seq<AttemptId>)
      requires TablesInvariant(T())
      modifies this
      ensures Lists(old(T()), now, due)
      ensures T() == SweepTables(old(T()), now, now, due)
      ensures directory == old(directory)
      ensures TablesInvariant(T())
      ensures forall a :: a in attempts && attempts[a].outcome == Pending ==> now < attempts[a].expires
      ensures attempts.Keys == old(attempts).Keys && forall a :: a in attempts ==>
                var was := old(attempts)[a];
                attempts[a] == if was.outcome == Pending && was.expires <= now then was.(outcome := Expired) else was
      ensures |audit| == |old(audit)| + |due| && audit[..|old(audit)|] == old(audit)
      ensures forall i :: 0 <= i < |due| ==>
                && due[i] in old(attempts) && old(attempts)[due[i]].identity in old(identities)
                && var was := old(attempts)[due[i]];
                   && was.outcome == Pending && was.expires <= now
                   && audit[|old(audit)| + i] ==
                        ClaimExpired(registration := was.identity, attempt := due[i],
                          owner := old(identities)[was.identity].did)
    {
      ghost var before := T();
      due := ListDue(now);
      SweepKeeps(before, now, due);
      SweepLeavesLive(before, now, due);
      EventsSurviveExpiry(before, now, due);
      SweepIs(before, now, due);
      hide ChildRows, AttemptTrail, TablesInvariant, ExpiryEvents, Lapsed, Lists;
      if due != [] {
        ExpireAttempts(now);
        AuditExpiries(due);
      }
    }
  }

  // ---- the steps of a mint, put together ----

  ghost predicate PrepareStep(t: Tables, t': Tables, r: Request, commits: bool,
                              res: Result<(nat, Prepared), MintError>) {
    var spec := PrepareChild(t, r);
    && t' == (if spec.Ok? && commits then spec.value else t)
    && res == if spec.Err? then Err(spec.error)
              else if commits then Ok((PREPARED, PreparedOf(r))) else Err(InternalError)
  }

  function ReloadStep(t: Tables, r: Request, cursor: nat): Result<(nat, Prepared), MintError> {
    var loaded := LoadPrepared(t, r);
    if loaded.Err? then Err(loaded.error) else Ok((cursor, loaded.value))
  }

  ghost predicate PublishStep(t: Tables, t': Tables, directory: set<Did>, directory': set<Did>, cursor: nat,
                              p: Prepared,
                              w: Weather, res: Result<nat, MintError>) {
    if CeremonyJournal.Reaches(Some(cursor), PUBLISHED) then t' == t && directory' == directory && res == Ok(cursor)
    else
      var posts := w.publish.Done? || (w.finds && p.child in directory);
      && directory' == (if posts || w.publish.landed then directory + {p.child} else directory)
      && t' == (if posts && (w.save.Done? || w.save.landed) then SavePublished(t, p.child) else t)
      && res == if !posts then Err(PlcDirectoryError) else if w.save.Failed? then Err(InternalError) else Ok(PUBLISHED)
  }

  ghost predicate FinalizeStep(t: Tables, t': Tables, cursor: nat, p: Prepared, registration: Registration, now: Time,
                               commits: bool, res: Result<nat, MintError>) {
    if CeremonyJournal.Reaches(Some(cursor), FINALIZED) then t' == t && res == Ok(cursor)
    else
      var spec := FinalizeChild(t, p, registration, now);
      && t' == (if spec.Ok? && commits then spec.value else t)
      && res == if spec.Err? then Err(spec.error) else if commits then Ok(FINALIZED) else Err(InternalError)
  }

  /** The stored row of a child has its account, and its marks are in order. */
  predicate Placed(t: Tables, directory: set<Did>, child: Did) {
    child in t.provisionings ==>
      && child in t.accounts
      && (t.provisionings[child].published ==> child in directory)
      && (t.provisionings[child].finalized ==> t.provisionings[child].published)
  }

  lemma RowsPlaced(s: System, child: Did)
    requires Invariant(s)
    ensures Placed(s.t, s.directory, child)
  {
    assert ChildRows(s.t, child);
  }

  /** Where the cursor of the row a mint works on stands. */
  function WorkCursor(t: Tables, r: Request): nat {
    if WorkRow(t, r).finalized then FINALIZED else if WorkRow(t, r).published then PUBLISHED else PREPARED
  }

  lemma MintStops(t: Tables, directory: set<Did>, r: Request, w: Weather, now: Time)
    requires ReserveObstacle(t, r, w).Some?
    ensures Answer(t, directory, r, w, now) == Err(ReserveObstacle(t, r, w).value)
    ensures TablesLeft(t, directory, r, w, now) == t && DirectoryLeft(t, directory, r, w) == directory
  {}

  lemma Obtains(t: Tables, t': Tables, directory: set<Did>, r: Request, w: Weather,
                res: Result<(nat, Prepared), MintError>)
    requires Placed(t, directory, r.child) && r.child != r.parent
    requires var cursor := LoadCursor(t, r.child);
             if cursor.None? then PrepareStep(t, t', r, w.prepareCommits, res)
             else t' == t && res == ReloadStep(t, r, cursor.value)
    ensures res.Err? ==> ReserveObstacle(t, r, w) == Some(res.error) && t' == t
    ensures res.Ok? ==>
              && ReserveObstacle(t, r, w) == None && t' == Reserved(t, r)
              && res.value == (WorkCursor(t, r), ChildOf(t, r))
  {}

  /** The publishing step, once the child is reserved. */
  lemma Publishes(t: Tables, t': Tables, directory: set<Did>, directory': set<Did>, r: Request, w: Weather, now: Time,
                  res: Result<nat, MintError>)
    requires Placed(t, directory, r.child) && ReserveObstacle(t, r, w) == None
    requires PublishStep(Reserved(t, r), t', directory, directory', WorkCursor(t, r), ChildOf(t, r), w, res)
    ensures directory' == DirectoryLeft(t, directory, r, w)
    ensures res.Err? ==> Answer(t, directory, r, w, now) == Err(res.error) && t' == TablesLeft(t, directory, r, w, now)
    ensures res.Ok? ==>
              && (WorkRow(t, r).published || (Posts(directory, r, w) && w.save.Done?))
              && res.value == (if WorkRow(t, r).finalized then FINALIZED else PUBLISHED)
              && t' == if WorkRow(t, r).published then Reserved(t, r) else PublishedTables(t, r)
  {}

  /** The finalizing step, once the publication is recorded. */
  lemma FinalizesLast(t: Tables, t': Tables, t'': Tables, directory: set<Did>, r: Request, w: Weather, now: Time,
                  cursor: nat, res: Result<nat, MintError>)
    requires Placed(t, directory, r.child) && ReserveObstacle(t, r, w) == None
    requires WorkRow(t, r).published || (Posts(directory, r, w) && w.save.Done?)
    requires t' == if WorkRow(t, r).published then Reserved(t, r) else PublishedTables(t, r)
    requires cursor == (if WorkRow(t, r).finalized then FINALIZED else PUBLISHED)
    requires FinalizeStep(t', t'', cursor, ChildOf(t, r), r.registration, now, w.finalizeCommits, res)
    ensures t'' == TablesLeft(t, directory, r, w, now)
    ensures Answer(t, directory, r, w, now) == if res.Ok? then Ok(ChildOf(t, r)) else Err(res.error)
  {
    hide TablesLeft, Answer, MintedTables;
    var published := t';
    if !WorkRow(t, r).finalized {
      ClaimMeaning(published, ChildOf(t, r), r, now);
      if FinalizeChild(published, ChildOf(t, r), r.registration, now).Ok? {
        FinalizeMeaning(t, published, r, now);
      }
    }
    AnswerMeaning(t, directory, r, w, now);
  }

  lemma AnswerMeaning(t: Tables, directory: set<Did>, r: Request, w: Weather, now: Time)
    requires Placed(t, directory, r.child) && ReserveObstacle(t, r, w) == None
    requires WorkRow(t, r).published || (Posts(directory, r, w) && w.save.Done?)
    ensures var (row, u) := (WorkRow(t, r), if WorkRow(t, r).published then Reserved(t, r) else PublishedTables(t, r));
            var obstacle := RegistrationObstacle(u, row.registration, r.registration, now);
            var (answer, left) := (Answer(t, directory, r, w, now), TablesLeft(t, directory, r, w, now));
            && (row.finalized ==> answer == Ok(ChildOf(t, r)) && left == u)
            && (!row.finalized && obstacle.Some? ==> answer == Err(obstacle.value) && left == u)
            && (!row.finalized && obstacle.None? && !w.finalizeCommits ==> answer == Err(InternalError) && left == u)
            && (!row.finalized && obstacle.None? && w.finalizeCommits ==>
                  answer == Ok(ChildOf(t, r)) && left == MintedTables(t, r))
  {
    hide MintedTables;
  }

  lemma ClaimMeaning(t: Tables, p: Prepared, r: Request, now: Time)
    ensures var obstacle := RegistrationObstacle(t, p.registration, r.registration, now);
            if obstacle.Some? then FinalizeChild(t, p, r.registration, now) == Err(obstacle.value)
            else FinalizeChild(t, p, r.registration, now).Ok?
  {}

  lemma FinalizeMeaning(t: Tables, u: Tables, r: Request, now: Time)
    requires !WorkRow(t, r).finalized && (r.child in t.provisionings ==> r.child in t.accounts)
    requires r.child in t.provisionings ==>
             t.provisionings[r.child].parent == r.parent && t.provisionings[r.child].handle == r.handle
    requires u == if WorkRow(t, r).published then Reserved(t, r) else PublishedTables(t, r)
    requires FinalizeChild(u, ChildOf(t, r), r.registration, now).Ok?
    ensures FinalizeChild(u, ChildOf(t, r), r.registration, now).value == MintedTables(t, r)
  {}

  /** Expiring the attempts does not change what is audited about them. */
  lemma EventsSurviveExpiry(t: Tables, now: Time, due: seq<AttemptId>)
    requires Lists(t, now, due)
    ensures var t' := ExpireLapsed(t, now);
            (forall a :: a in due ==> a in t'.attempts && t'.attempts[a].identity in t'.identities)
            && ExpiryEvents(t', due) == ExpiryEvents(t, due)
  {}

  /** A sweep expires exactly what is pending and past its time, with an event for each. */
  lemma SweepIs(t: Tables, now: Time, due: seq<AttemptId>)
    requires Keys(t) && Lists(t, now, due)
    ensures var t' := SweepTables(t, now, now, due);
            && t'.attempts.Keys == t.attempts.Keys
            && (forall a :: a in t'.attempts ==>
                  var was := t.attempts[a];
                  t'.attempts[a]
                  == if was.outcome == Pending && was.expires <= now then was.(outcome := Expired) else was)
            && |t'.audit| == |t.audit| + |due| && t'.audit[..|t.audit|] == t.audit
            && (forall i :: 0 <= i < |due| ==>
                  && due[i] in t.attempts && t.attempts[due[i]].identity in t.identities
                  && var was := t.attempts[due[i]];
                     && was.outcome == Pending && was.expires <= now
                     && t'.audit[|t.audit| + i] ==
                          ClaimExpired(registration := was.identity, attempt := due[i],
                            owner := t.identities[was.identity].did))
  {
    forall i | 0 <= i < |due| ensures Due(t, due[i], now) {
      assert due[i] in due;
    }
    if due == [] {
      forall a | a in t.attempts && t.attempts[a].outcome == Pending ensures now < t.attempts[a].expires {
        assert Due(t, a, now) ==> a in due;
      }
    }
  }

  /** After a sweep no pending attempt is past its time. */
  lemma SweepLeavesLive(t: Tables, now: Time, due: seq<AttemptId>)
    requires Keys(t) && Lists(t, now, due)
    ensures var t' := SweepTables(t, now, now, due);
            forall a :: a in t'.attempts && t'.attempts[a].outcome == Pending ==> now < t'.attempts[a].expires
  {
    var t' := SweepTables(t, now, now, due);
    forall a | a in t'.attempts && t'.attempts[a].outcome == Pending ensures now < t'.attempts[a].expires {
      assert Due(t, a, now) ==> a in due;
    }
  }

  /** Appends one action to a recorded run. */
  lemma Extend(s0: System, actions: seq<Action>, s: System, a: Action) returns (longer: seq<Action>, next: System)
    requires Run(s0, actions) == Some(s) && Apply(s, a).Some?
    ensures longer == actions + [a] && next == Apply(s, a).value
    ensures Run(s0, longer) == Some(next)
  {
    RunAppend(s0, actions, a);
    longer, next := actions + [a], Apply(s, a).value;
  }

  /** The tables after a run keep the invariant once its mints are forgotten. */
  lemma KeepsWhenRun(s0: System, actions: seq<Action>, now: System)
    requires Invariant(s0) && Run(s0, actions).Some?
    requires now == Run(s0, actions).value.(mints := map[])
    ensures Invariant(now)
  {
    RunInvariantFrom(s0, actions);
  }

  /** A mint holding the finalized cursor has an active child that plc.directory knows. */
  lemma HeldIsActive(s0: System, actions: seq<Action>, m: MintId)
    requires Invariant(s0) && Run(s0, actions).Some? && m in Run(s0, actions).value.mints
    requires var phase := Run(s0, actions).value.mints[m].phase;
             phase.Holding? && CeremonyJournal.Reaches(Some(phase.cursor), FINALIZED)
    ensures var (s, child) := (Run(s0, actions).value, Run(s0, actions).value.mints[m].request.child);
            child in s.t.accounts && s.t.accounts[child].active && child in s.directory
  {
    RunInvariantFrom(s0, actions);
    var s := Run(s0, actions).value;
    assert MintHolds(s, s.mints[m]);
    assert ChildRows(s.t, s.mints[m].request.child);
  }
}

/** The journal of one child's mint, read off a run of interleaved mints, in the terms of `CeremonyJournal`. */
module ChildJournal {
  import opened Wrappers
  import opened CeremonyJournal
  import opened AgentTables
  import opened ChildMint

  /** The mint a step belongs to, when it is a step of a mint of `d`. */
  predicate Mints(s: System, a: Action, d: Did) {
    && (a.Prepare? || a.Reload? || a.Publish? || a.RecordPublished? || a.Finalize? || a.Crash?)
    && a.m in s.mints && s.mints[a.m].request.child == d
  }

  /** The step is a mint's prepare that commits. */
  predicate Prepares(s: System, a: Action) {
    a.Prepare? && a.commits && a.m in s.mints && PrepareChild(s.t, s.mints[a.m].request).Ok?
  }

  /** What a step adds to the journal of `d`: prepare and finalize record themselves in their own transactions. */
  function Emits(s: System, a: Action, d: Did): seq<Entry> {
    if !Mints(s, a, d) then []
    else
      match a
      case Prepare(_, _) =>
        [Work(PREPARED)] + [if Prepares(s, a) then Record(PREPARED) else Break]
      case Publish(_, answered, _) => [Work(PUBLISHED)] + if answered then [] else [Break]
      case RecordPublished(_, outcome) =>
        (if outcome.Done? || outcome.landed then [Record(PUBLISHED)] else []) + if outcome.Done? then [] else [Break]
      case Finalize(_, _, _) => [Work(FINALIZED)] + [if Finalizes(s, a) then Record(FINALIZED) else Break]
      case Reload(m) => if LoadPrepared(s.t, s.mints[m].request).Ok? then [] else [Break]
      case Crash(_) => [Break]
      case _ => []
  }

  /** The journal of `d` over a run from the empty state. */
  ghost function LogOf(actions: seq<Action>, d: Did): seq<Entry>
    decreases |actions|
  {
    if actions == [] then []
    else
      var (init, last) := (actions[..|actions| - 1], actions[|actions| - 1]);
      LogOf(init, d) + if Run(EMPTY, init).Some? then Emits(Run(EMPTY, init).value, last, d) else []
  }

  /** A record only follows work of its step. */
  ghost predicate RecordsFollowWork(log: seq<Entry>) {
    forall j, t: nat {:trigger Record(t), log[j]} :: 0 <= j < |log| && log[j] == Record(t) ==> Work(t) in log[..j]
  }

  /** Only the publication is ever recorded twice. */
  ghost predicate RecordsOnce(log: seq<Entry>) {
    forall i, j :: 0 <= i < j < |log| && log[i].Record? && log[i] == log[j] ==> log[i] == Record(PUBLISHED)
  }

  /** The journal agrees with a cursor that stands after `k` steps. */
  ghost predicate LogHolds(log: seq<Entry>, k: nat) {
    && StartsInOrder(log) && RecordsFollowWork(log) && RecordsOnce(log)
    && (forall t: nat :: Record(t) in log <==> t < k)
  }

  lemma AppendWorkEntry(log: seq<Entry>, k: nat, step: nat)
    requires LogHolds(log, k) && step <= k
    ensures LogHolds(log + [Work(step)], k)
  {
    Prefixes(log, Work(step));
  }

  lemma AppendBreak(log: seq<Entry>, k: nat)
    requires LogHolds(log, k)
    ensures LogHolds(log + [Break], k)
  {
    Prefixes(log, Break);
  }

  lemma AppendRecord(log: seq<Entry>, k: nat, step: nat)
    requires LogHolds(log, k) && Work(step) in log && step <= k && (step == k || step == PUBLISHED)
    ensures LogHolds(log + [Record(step)], if step == k then k + 1 else k)
  {
    Prefixes(log, Record(step));
  }

  lemma Prefixes(log: seq<Entry>, e: Entry)
    ensures forall j :: 0 <= j <= |log| ==> (log + [e])[..j] == log[..j]
    ensures log[..|log|] == log
  {}

  /** The journal of `d` agrees with its stored cursor, and a mint that has heard back published. */
  ghost predicate JournalHolds(log: seq<Entry>, s: System, d: Did) {
    && LogHolds(log, Cursor(s, d))
    && (forall m :: m in s.mints && s.mints[m].phase.Posted? && s.mints[m].request.child == d ==>
       Work(PUBLISHED) in log)
  }

  function Cursor(s: System, d: Did): nat {
    Recorded(LoadCursor(s.t, d))
  }

  lemma AtPrepare(s: System, a: Action, d: Did)
    requires a.Prepare? && ChildMint.Apply(s, a).Some?
    ensures var (k, k') := (Cursor(s, d), Cursor(ChildMint.Apply(s, a).value, d));
            if Mints(s, a, d) && Prepares(s, a) then k == PREPARED && k' == PREPARED + 1 else k' == k
  {
    hide EmailTaken;
  }

  lemma AtRecord(s: System, a: Action, d: Did)
    requires a.RecordPublished? && ChildMint.Apply(s, a).Some? && MintHolds(s, s.mints[a.m])
    ensures var (k, k') := (Cursor(s, d), Cursor(ChildMint.Apply(s, a).value, d));
            if Mints(s, a, d) && (a.outcome.Done? || a.outcome.landed)
            then k' == if k == PUBLISHED then PUBLISHED + 1 else k
            else k' == k
    ensures Mints(s, a, d) ==> s.mints[a.m].phase.Posted? && PUBLISHED <= Cursor(s, d)
  {}

  lemma AtPublish(s: System, a: Action, d: Did)
    requires a.Publish? && ChildMint.Apply(s, a).Some? && MintHolds(s, s.mints[a.m])
    ensures var (k, k') := (Cursor(s, d), Cursor(ChildMint.Apply(s, a).value, d));
            k' == k && (Mints(s, a, d) ==> PUBLISHED <= k)
  {}

  lemma AtFinalize(s: System, a: Action, d: Did)
    requires Invariant(s) && a.Finalize? && ChildMint.Apply(s, a).Some?
    ensures var (k, k') := (Cursor(s, d), Cursor(ChildMint.Apply(s, a).value, d));
            && (Mints(s, a, d) ==> FINALIZED <= k)
            && if Mints(s, a, d) && Finalizes(s, a) then k == FINALIZED && k' == FINALIZED + 1 else k' == k
  {
    hide FramesOf, AuditOf;
    assert MintHolds(s, s.mints[a.m]);
    StepFinalize(s, a);
    hide TablesInvariant, ChildRows, AttemptTrail, Keys;
    if Finalizes(s, a) {
      FinalizeMarks(s.t, s.mints[a.m].phase.prepared, s.mints[a.m].request.registration, a.now, d);
      hide FinalizeChild;
    }
  }

  lemma FinalizeMarks(t: Tables, p: Prepared, registration: Registration, now: Time, d: Did)
    requires FinalizeChild(t, p, registration, now).Ok?
    ensures var t' := FinalizeChild(t, p, registration, now).value;
            LoadCursor(t', d) ==
              if d == p.child && d in t.provisionings && t.provisionings[d].published
              then Some(FINALIZED) else LoadCursor(t, d)
  {}

  lemma Elsewhere(s: System, a: Action, d: Did)
    requires ChildMint.Apply(s, a).Some? && !a.Prepare? && !a.RecordPublished? && !a.Publish? && !a.Finalize?
    ensures Cursor(ChildMint.Apply(s, a).value, d) == Cursor(s, d)
  {
    hide LoadPrepared, PrepareChild, FinalizeChild;
  }

  /** One of the two-entry steps: work, then its record or a break. */
  lemma WorkThen(log: seq<Entry>, k: nat, step: nat, records: bool)
    requires LogHolds(log, k) && step <= k && (records ==> step == k)
    ensures LogHolds(log + ([Work(step)] + [if records then Record(step) else Break]), if records then k + 1 else k)
  {
    hide LogHolds;
    AppendWorkEntry(log, k, step);
    assert Work(step) in log + [Work(step)];
    if records {
      AppendRecord(log + [Work(step)], k, step);
    } else {
      AppendBreak(log + [Work(step)], k);
    }
    assert log + ([Work(step)] + [if records then Record(step) else Break])
           == log + [Work(step)] + [if records then Record(step) else Break];
  }

  lemma StepJournal(log: seq<Entry>, s: System, a: Action, d: Did)
    requires Invariant(s) && JournalHolds(log, s, d) && ChildMint.Apply(s, a).Some? && Mints(s, a, d)
    ensures LogHolds(log + Emits(s, a, d), Cursor(ChildMint.Apply(s, a).value, d))
  {
    hide LogHolds, Invariant, Cursor, ChildMint.Apply, Prepares, Finalizes;
    MintsHold(s, a, d);
    var k := Cursor(s, d);
    assert log + [] == log;
    match a
    case Prepare(_, _) =>
      AtPrepare(s, a, d);
      WorkThen(log, k, PREPARED, Prepares(s, a));
    case Publish(_, answered, _) =>
      AtPublish(s, a, d);
      AppendWorkEntry(log, k, PUBLISHED);
      assert Emits(s, a, d) == if answered then [Work(PUBLISHED)] else [Work(PUBLISHED)] + [Break];
      WorkThen(log, k, PUBLISHED, false);
    case RecordPublished(_, outcome) =>
      AtRecord(s, a, d);
      RecordThen(log, k, outcome);
    case Finalize(_, _, _) =>
      AtFinalize(s, a, d);
      WorkThen(log, k, FINALIZED, Finalizes(s, a));
    case _ =>
      Elsewhere(s, a, d);
      AppendBreak(log, k);
  }

  lemma MintsHold(s: System, a: Action, d: Did)
    requires Invariant(s) && Mints(s, a, d)
    ensures MintHolds(s, s.mints[a.m])
  {}

  lemma RecordThen(log: seq<Entry>, k: nat, outcome: CeremonyJournal.Outcome)
    requires LogHolds(log, k) && Work(PUBLISHED) in log && PUBLISHED <= k
    ensures var lands := outcome.Done? || outcome.landed;
            LogHolds(log + ((if lands then [Record(PUBLISHED)] else []) + if outcome.Done? then [] else [Break]),
                     if lands && k == PUBLISHED then k + 1 else k)
  {
    hide LogHolds;
    var lands := outcome.Done? || outcome.landed;
    if lands {
      AppendRecord(log, k, PUBLISHED);
    }
    var longer := if lands then log + [Record(PUBLISHED)] else log;
    if outcome.Failed? {
      AppendBreak(longer, if lands && k == PUBLISHED then k + 1 else k);
    }
    assert log + ((if lands then [Record(PUBLISHED)] else []) + if outcome.Done? then [] else [Break])
           == if outcome.Done? then longer else longer + [Break];
  }

  /** The mints that have heard back. */
  lemma PostedOnes(s: System, a: Action, m: MintId)
    requires ChildMint.Apply(s, a).Some? && m in ChildMint.Apply(s, a).value.mints
    requires ChildMint.Apply(s, a).value.mints[m].phase.Posted?
    ensures m in s.mints && ChildMint.Apply(s, a).value.mints[m].request == s.mints[m].request
    ensures s.mints[m].phase.Posted? || (a.Publish? && a.m == m && Mints(s, a, s.mints[m].request.child))
  {
    hide LoadPrepared, PrepareChild, FinalizeChild, SavePublished, SweepTables, ConfirmForOwner;
  }

  lemma {:induction false} RunJournal(actions: seq<Action>, d: Did)
    requires Run(EMPTY, actions).Some?
    ensures JournalHolds(LogOf(actions, d), Run(EMPTY, actions).value, d)
    decreases |actions|
  {
    RunKeepsInvariant(actions);
    hide LogHolds, Invariant, ChildMint.Apply;
    if actions == [] {
      EmptyLog();
    } else {
      var (init, last) := (actions[..|actions| - 1], actions[|actions| - 1]);
      RunKeepsInvariant(init);
      RunJournal(init, d);
      var s := Run(EMPTY, init).value;
      StepWhole(LogOf(init, d), s, last, d);
    }
  }

  lemma StepWhole(log: seq<Entry>, s: System, a: Action, d: Did)
    requires Invariant(s) && JournalHolds(log, s, d) && ChildMint.Apply(s, a).Some?
    ensures JournalHolds(log + Emits(s, a, d), ChildMint.Apply(s, a).value, d)
  {
    hide LogHolds, Invariant, ChildMint.Apply, Cursor, Prepares, Finalizes, Mints;
    var s' := ChildMint.Apply(s, a).value;
    if Mints(s, a, d) {
      StepJournal(log, s, a, d);
    } else {
      NotMine(s, a, d);
      assert log + Emits(s, a, d) == log;
    }
    forall m | m in s'.mints && s'.mints[m].phase.Posted? && s'.mints[m].request.child == d
      ensures Work(PUBLISHED) in log + Emits(s, a, d)
    {
      PostedOnes(s, a, m);
    }
  }

  lemma NotMine(s: System, a: Action, d: Did)
    requires Invariant(s) && ChildMint.Apply(s, a).Some? && !Mints(s, a, d)
    ensures Cursor(ChildMint.Apply(s, a).value, d) == Cursor(s, d)
  {
    hide Cursor;
    if a.Prepare? {
      AtPrepare(s, a, d);
    } else if a.RecordPublished? {
      AtRecord(s, a, d);
    } else if a.Publish? {
      AtPublish(s, a, d);
    } else if a.Finalize? {
      AtFinalize(s, a, d);
    } else {
      Elsewhere(s, a, d);
    }
  }

  lemma EmptyLog()
    ensures LogHolds([], 0)
  {}

  /**
   * Over every run of interleaved, failing and crashing mints, the journal of a child is in order: no step starts
   * before the earlier ones are recorded, a record follows its work, the stored cursor says exactly which steps are
   * recorded, and the two steps whose transactions record themselves are recorded at most once.
   */
  lemma ChildJournalInOrder(actions: seq<Action>, s: System, d: Did)
    requires Run(EMPTY, actions) == Some(s)
    ensures StartsInOrder(LogOf(actions, d)) && RecordsFollowWork(LogOf(actions, d)) && RecordsOnce(LogOf(actions, d))
    ensures forall t: nat :: Record(t) in LogOf(actions, d) <==> t < Recorded(LoadCursor(s.t, d))
  {
    RunJournal(actions, d);
  }
}

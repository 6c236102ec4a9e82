/** Resumable ceremonies: the cursor of `ceremony-journal` and what it promises across crashes. */
module CeremonyJournal {
  import opened Wrappers

  // Steps are numbered in execution order. A cursor is the last recorded step, `None` before the first.

  function Recorded(cursor: Option<nat>): nat {
    if cursor.None? then 0 else cursor.value + 1
  }

  predicate Reaches(cursor: Option<nat>, step: nat) {
    cursor.Some? && cursor.value >= step
  }

  /** How a fallible step or store write ends; a failure may still have taken effect. */
  datatype Outcome = Done | Failed(landed: bool)

  // ---- the journal of one ceremony instance ----

  /** What outlives a process: the stored cursor and the world the steps act on. */
  class Instance<W> {
    var saved: Option<nat>
    var world: W

    constructor (world: W)
      ensures saved == None && this.world == world
    {
      saved, this.world := None, world;
    }
  }

  class Journal<W> {
    const store: Instance<W>
    var cursor: Option<nat>

    constructor Resume(store: Instance<W>)
      ensures this.store == store && cursor == store.saved
    {
      this.store, cursor := store, store.saved;
    }

    predicate Reached(step: nat)
      reads this
    {
      cursor.Some? && cursor.value >= step
    }

    /** Records `step`; an earlier step than the cursor rewinds it. */
    method Advance(step: nat, save: Outcome) returns (ok: bool)
      modifies this, store
      ensures ok == save.Done?
      ensures store.world == old(store.world)
      ensures ok ==> cursor == store.saved == Some(step)
      ensures !ok ==> cursor == old(cursor)
      ensures !ok ==> store.saved == if save.landed then Some(step) else old(store.saved)
    {
      if save.Done? || save.landed {
        store.saved := Some(step);
      }
      if save.Failed? {
        return false;
      }
      cursor := Some(step);
      return true;
    }

    /** Runs `step`'s work unless the cursor has reached it, then records it. */
    method Run(step: nat, work: W -> W, outcome: Outcome, save: Outcome) returns (ok: bool)
      modifies this, store
      ensures old(Reached(step)) ==>
              ok && cursor == old(cursor) && store.saved == old(store.saved) && store.world == old(store.world)
      ensures !old(Reached(step)) ==> ok == (outcome.Done? && save.Done?)
      ensures !old(Reached(step)) ==>
                store.world == if outcome.Done? || outcome.landed then work(old(store.world)) else old(store.world)
      ensures !old(Reached(step)) ==>
                store.saved == if outcome.Done? && (save.Done? || save.landed) then Some(step) else old(store.saved)
      ensures !old(Reached(step)) ==> cursor == if ok then Some(step) else old(cursor)
    {
      if Reached(step) {
        return true;
      }
      if outcome.Done? || outcome.landed {
        store.world := work(store.world);
      }
      if outcome.Failed? {
        return false;
      }
      ok := Advance(step, save);
    }
  }

  // ---- crash-free progress, and what a crash may leave ----

  /** The world after the first `k` steps of a run nothing interrupts. */
  function Progress<W>(steps: seq<W -> W>, k: nat, start: W): W
    requires k <= |steps|
  {
    if k == 0 then start else steps[k - 1](Progress(steps, k - 1, start))
  }

  /** Repeating any step right after it ran changes nothing, on the path of the crash-free run. */
  ghost predicate Idempotent<W>(steps: seq<W -> W>, start: W) {
    forall k :: 0 <= k < |steps| ==> steps[k](Progress(steps, k + 1, start)) == Progress(steps, k + 1, start)
  }

  /** Every recorded step has taken effect, and at most the next one besides. */
  ghost predicate Consistent<W>(steps: seq<W -> W>, start: W, saved: Option<nat>, world: W) {
    var k := Recorded(saved);
    && k <= |steps|
    && (world == Progress(steps, k, start) || (k < |steps| && world == Progress(steps, k + 1, start)))
  }

  lemma RepeatedWork<W>(steps: seq<W -> W>, start: W, saved: Option<nat>, world: W)
    requires Idempotent(steps, start) && Consistent(steps, start, saved, world) && Recorded(saved) < |steps|
    ensures steps[Recorded(saved)](world) == Progress(steps, Recorded(saved) + 1, start)
  {}

  /** `Journal::resume`: the stored cursor, unless the store cannot be read. */
  method Resume<W>(store: Instance<W>, loads: bool) returns (r: Result<Journal<W>, ()>)
    ensures r.Ok? <==> loads
    ensures r.Ok? ==> fresh(r.value) && r.value.store == store && r.value.cursor == store.saved
  {
    if !loads {
      return Err(());
    }
    var journal := new Journal.Resume(store);
    return Ok(journal);
  }

  /** One step of a ceremony whose earlier steps are recorded. */
  method DriveStep<W>(journal: Journal<W>, store: Instance<W>, steps: seq<W -> W>, i: nat, work: Outcome, save: Outcome,
                      ghost start: W)
    returns (ok: bool)
    requires journal.store == store && journal.cursor == store.saved && i < |steps|
    requires i <= Recorded(store.saved) <= |steps|
    modifies journal, store
    ensures work.Done? && save.Done? ==> ok
    ensures Recorded(old(store.saved)) <= Recorded(store.saved) <= |steps|
    ensures ok ==> journal.cursor == store.saved && i < Recorded(store.saved)
    ensures Idempotent(steps, start) && Consistent(steps, start, old(store.saved), old(store.world)) ==>
              Consistent(steps, start, store.saved, store.world)
  {
    hide Idempotent;
    if !journal.Reached(i) && Idempotent(steps, start) && Consistent(steps, start, store.saved, store.world) {
      RepeatedWork(steps, start, store.saved, store.world);
    }
    ok := journal.Run(i, steps[i], work, save);
  }

  /**
   * One process driving the whole ceremony through `Run`, resuming wherever the store stands and stopping at the
   * first failure. It never loses a recorded step; with idempotent work each such process leaves a consistent store,
   * and one that gets through ends in the crash-free world.
   */
  method Drive<W>(store: Instance<W>, steps: seq<W -> W>, loads: bool, works: nat -> Outcome, saves: nat -> Outcome,
                  ghost start: W)
    returns (ok: bool)
    requires Recorded(store.saved) <= |steps|
    modifies store
    ensures Recorded(old(store.saved)) <= Recorded(store.saved) <= |steps|
    ensures ok ==> Recorded(store.saved) == |steps|
    ensures Idempotent(steps, start) && Consistent(steps, start, old(store.saved), old(store.world)) ==>
              && Consistent(steps, start, store.saved, store.world)
              && (ok ==> store.world == Progress(steps, |steps|, start))
    ensures loads && (forall i: nat :: works(i).Done? && saves(i).Done?) ==> ok
  {
    ghost var exact := Idempotent(steps, start) && Consistent(steps, start, store.saved, store.world);
    var resumed := Resume(store, loads);
    if resumed.Err? {
      return false;
    }
    var journal := resumed.value;
    hide Idempotent, Consistent, Recorded;
    for i := 0 to |steps|
      invariant journal.store == store && journal.cursor == store.saved
      invariant fresh(journal)
      invariant exact ==> Idempotent(steps, start) && Consistent(steps, start, store.saved, store.world)
      invariant i <= Recorded(store.saved) <= |steps| && Recorded(old(store.saved)) <= Recorded(store.saved)
    {
      ok := DriveStep(journal, store, steps, i, works(i), saves(i), start);
      if !ok {
        return;
      }
    }
    return true;
  }

  // ---- whole runs, event by event ----

  datatype Driver = Driver(cursor: Option<nat>, at: nat, worked: bool)

  datatype Entry = Work(step: nat) | Record(step: nat) | Break

  datatype State<W> = State(saved: Option<nat>, world: W, driver: Option<Driver>, log: seq<Entry>)

  datatype Event = Start | Skip | DoWork | FailWork(landed: bool) | Save | FailSave(landed: bool) | Crash

  /** One event, or `None` when it cannot happen. A failure or a crash ends the driving process. */
  function Apply<W>(steps: seq<W -> W>, st: State<W>, e: Event): Option<State<W>> {
    if st.driver.None? then
      if e.Start? then Some(st.(driver := Some(Driver(st.saved, 0, false)))) else None
    else
      var d := st.driver.value;
      var pending := d.at < |steps| && !d.worked && !Reaches(d.cursor, d.at);
      match e
      case Start => None
      case Skip =>
        if d.at < |steps| && !d.worked && Reaches(d.cursor, d.at)
        then Some(st.(driver := Some(d.(at := d.at + 1)))) else None
      case DoWork =>
        if pending then
          Some(st.(world := steps[d.at](st.world), driver := Some(d.(worked := true)), log := st.log + [Work(d.at)]))
        else None
      case FailWork(landed) =>
        if pending then
          Some(st.(world := if landed then steps[d.at](st.world) else st.world, driver := None,
                   log := st.log + [Work(d.at)] + [Break]))
        else None
      case Save =>
        if d.worked then
          Some(st.(saved := Some(d.at), driver := Some(Driver(Some(d.at), d.at + 1, false)),
            log := st.log + [Record(d.at)]))
        else None
      case FailSave(landed) =>
        if !d.worked then None
        else if landed then Some(st.(saved := Some(d.at), driver := None, log := st.log + [Record(d.at)] + [Break]))
        else Some(st.(driver := None, log := st.log + [Break]))
      case Crash => Some(st.(driver := None, log := st.log + [Break]))
  }

  function RunAll<W>(steps: seq<W -> W>, st: State<W>, events: seq<Event>): Option<State<W>>
    decreases |events|
  {
    if events == [] then Some(st)
    else
      var next := RunAll(steps, st, events[..|events| - 1]);
      if next.None? then None else Apply(steps, next.value, events[|events| - 1])
  }

  /** A step's work never starts before every earlier step is recorded. */
  ghost predicate StartsInOrder(log: seq<Entry>) {
    forall j, s: nat {:trigger Work(s), log[j]} :: 0 <= j < |log| && log[j] == Work(s) ==>
      forall t: nat :: t < s ==> Record(t) in log[..j]
  }

  /** Nor once it is recorded itself. */
  ghost predicate NotOnceRecorded(log: seq<Entry>) {
    forall j, s: nat {:trigger Work(s), log[j]} :: 0 <= j < |log| && log[j] == Work(s) ==> Record(s) !in log[..j]
  }

  ghost predicate Ordered(log: seq<Entry>) {
    StartsInOrder(log) && NotOnceRecorded(log)
  }

  /** Between two runs of one step's work something broke. */
  ghost predicate RerunsAfterBreak(log: seq<Entry>) {
    forall i, j :: 0 <= i < j < |log| && log[i].Work? && log[i] == log[j] ==> Break in log[i..j]
  }

  /** The step's work ran in `log` and nothing broke since. */
  ghost predicate Completed(log: seq<Entry>, step: nat) {
    exists i :: 0 <= i < |log| && log[i] == Work(step) && Break !in log[i..]
  }

  /** A record only follows the completed work of its step. */
  ghost predicate RecordsCompletedWork(log: seq<Entry>) {
    forall j, t: nat {:trigger Record(t), log[j]} :: 0 <= j < |log| && log[j] == Record(t) ==> Completed(log[..j], t)
  }

  /** What the log and the cursors keep, whatever the work does. */
  ghost predicate LogInvariant<W>(n: nat, st: State<W>) {
    var k := Recorded(st.saved);
    && k <= n
    && (st.driver.Some? ==>
          var d := st.driver.value;
          && d.cursor == st.saved && d.at <= k
          && (d.worked ==> d.at == k < n && Completed(st.log, k)))
    && Ordered(st.log) && RerunsAfterBreak(st.log) && RecordsCompletedWork(st.log)
    && (forall t: nat :: Record(t) in st.log <==> t < k)
    && (forall i :: 0 <= i < |st.log| && st.log[i].Work? && Break !in st.log[i..] ==>
          st.log[i].step < k || (st.driver.Some? && st.driver.value.worked))
  }

  /** What the world keeps when step work is idempotent. */
  ghost predicate WorldInvariant<W>(steps: seq<W -> W>, start: W, st: State<W>) {
    var k := Recorded(st.saved);
    && Consistent(steps, start, st.saved, st.world)
    && (st.driver.Some? && st.driver.value.worked ==> k < |steps| && st.world == Progress(steps, k + 1, start))
  }

  lemma AppendOrdered(log: seq<Entry>, e: Entry, k: nat)
    requires Ordered(log)
    requires forall t: nat :: Record(t) in log <==> t < k
    requires e.Work? ==> e.step == k
    ensures Ordered(log + [e])
  {
    var longer := log + [e];
    forall j, s: nat | 0 <= j < |longer| && longer[j] == Work(s)
      ensures (forall t: nat :: t < s ==> Record(t) in longer[..j]) && Record(s) !in longer[..j]
    {
      if j < |log| {
        assert longer[..j] == log[..j] && log[j] == Work(s);
      } else {
        assert longer[..j] == log;
      }
    }
  }

  lemma AppendRecords(log: seq<Entry>, e: Entry)
    requires RecordsCompletedWork(log) && (e.Record? ==> Completed(log, e.step))
    ensures RecordsCompletedWork(log + [e])
  {
    hide Completed;
    var longer := log + [e];
    forall j, t: nat | 0 <= j < |longer| && longer[j] == Record(t) ensures Completed(longer[..j], t) {
      if j < |log| {
        assert longer[..j] == log[..j] && log[j] == Record(t);
      } else {
        assert longer[..j] == log;
      }
    }
  }

  lemma AppendReruns(log: seq<Entry>, e: Entry)
    requires RerunsAfterBreak(log)
    requires e.Work? ==> forall i :: 0 <= i < |log| && log[i] == e ==> Break in log[i..]
    ensures RerunsAfterBreak(log + [e])
  {
    var longer := log + [e];
    forall i, j | 0 <= i < j < |longer| && longer[i].Work? && longer[i] == longer[j]
      ensures Break in longer[i..j]
    {
      if j < |log| {
        assert longer[i..j] == log[i..j];
      } else {
        assert longer[i..j] == log[i..];
      }
    }
  }

  /** Open work: positions after which nothing broke stay open or are closed by a break. */
  lemma AppendOpen(log: seq<Entry>, e: Entry, i: nat)
    requires i < |log|
    ensures Break in (log + [e])[i..] <==> Break in log[i..] || e == Break
  {
    assert (log + [e])[i..] == log[i..] + [e];
  }

  /** One event keeps the log in order, with no condition on the work. */
  lemma StepLog<W>(steps: seq<W -> W>, st: State<W>, e: Event)
    requires LogInvariant(|steps|, st) && Apply(steps, st, e).Some?
    ensures LogInvariant(|steps|, Apply(steps, st, e).value)
  {
    var k := Recorded(st.saved);
    hide Completed;
    if st.driver.Some? {
      var d := st.driver.value;
      if e.DoWork? || e.FailWork? {
        Append(st.log, Work(d.at), k, false);
        AppendWork(st.log, d.at);
        if e.FailWork? { Append(st.log + [Work(d.at)], Break, k, true); }
      } else if e.Save? || (e.FailSave? && e.landed) {
        Append(st.log, Record(d.at), k, true);
        if e.FailSave? { Append(st.log + [Record(d.at)], Break, k + 1, true); }
      } else if e.FailSave? || e.Crash? {
        Append(st.log, Break, k, true);
      }
    }
  }

  lemma AppendWork(log: seq<Entry>, step: nat)
    ensures Completed(log + [Work(step)], step)
  {
    assert (log + [Work(step)])[|log|..] == [Work(step)];
  }

  /** One event keeps the world on the crash-free path. */
  lemma StepWorld<W>(steps: seq<W -> W>, start: W, st: State<W>, e: Event)
    requires Idempotent(steps, start) && LogInvariant(|steps|, st) && WorldInvariant(steps, start, st)
    requires Apply(steps, st, e).Some?
    ensures WorldInvariant(steps, start, Apply(steps, st, e).value)
  {
    hide Ordered, RerunsAfterBreak, RecordsCompletedWork, Completed;
    if st.driver.Some? && (e.DoWork? || e.FailWork?) {
      RepeatedWork(steps, start, st.saved, st.world);
    }
  }

  /** Appending one entry to a log with `k` records; `open` allows work at `k` still unrecorded. */
  lemma Append(log: seq<Entry>, e: Entry, k: nat, open: bool)
    requires Ordered(log) && RerunsAfterBreak(log) && RecordsCompletedWork(log)
    requires forall t: nat :: Record(t) in log <==> t < k
    requires !open ==> forall i :: 0 <= i < |log| && log[i].Work? && Break !in log[i..] ==> log[i].step < k
    requires e.Work? ==> e.step == k && !open
    requires e.Record? ==> e.step == k && Completed(log, k)
    ensures Ordered(log + [e]) && RerunsAfterBreak(log + [e]) && RecordsCompletedWork(log + [e])
    ensures forall t: nat :: Record(t) in log + [e] <==> t < if e.Record? then k + 1 else k
    ensures e == Break ==> forall i :: 0 <= i < |log + [e]| && (log + [e])[i].Work? ==> Break in (log + [e])[i..]
    ensures forall i :: 0 <= i < |log| && Break !in (log + [e])[i..] ==> Break !in log[i..]
  {
    hide Completed;
    AppendOrdered(log, e, k);
    AppendReruns(log, e);
    AppendRecords(log, e);
    forall i | 0 <= i < |log|
      ensures Break in (log + [e])[i..] <==> Break in log[i..] || e == Break
    {
      AppendOpen(log, e, i);
    }
  }

  /** Every run of events from a fresh ceremony keeps the log invariant, and with idempotent work the world's. */
  lemma {:induction false} RunInvariant<W>(steps: seq<W -> W>, start: W, events: seq<Event>)
    ensures var r := RunAll(steps, State(None, start, None, []), events);
            r.Some? ==>
              && LogInvariant(|steps|, r.value)
              && (Idempotent(steps, start) ==> WorldInvariant(steps, start, r.value))
    decreases |events|
  {
    hide Idempotent;
    if events != [] {
      var init := events[..|events| - 1];
      RunInvariant(steps, start, init);
      var r := RunAll(steps, State(None, start, None, []), init);
      hide LogInvariant, WorldInvariant;
      if r.Some? && Apply(steps, r.value, events[|events| - 1]).Some? {
        StepLog(steps, r.value, events[|events| - 1]);
        if Idempotent(steps, start) {
          StepWorld(steps, start, r.value, events[|events| - 1]);
        }
      }
    } else {
      FreshInvariant(steps, start);
    }
  }

  lemma FreshInvariant<W>(steps: seq<W -> W>, start: W)
    ensures LogInvariant(|steps|, State(None, start, None, []))
            && WorldInvariant(steps, start, State(None, start, None, []))
  {}

  /**
   * Whatever the work does, and whatever crashed or failed on the way: exactly the steps up to the durable cursor are
   * recorded, each after its completed work, and no work started early, once recorded, or again without a break. With
   * idempotent work the world is besides never more than one step ahead of the cursor, and a driver that gets to the
   * end leaves the crash-free world.
   */
  lemma JournalRefinesCrashFreeRun<W>(steps: seq<W -> W>, start: W, events: seq<Event>, st: State<W>)
    requires RunAll(steps, State(None, start, None, []), events) == Some(st)
    ensures Recorded(st.saved) <= |steps| && forall t: nat :: Record(t) in st.log <==> t < Recorded(st.saved)
    ensures Ordered(st.log) && RerunsAfterBreak(st.log) && RecordsCompletedWork(st.log)
    ensures st.driver.Some? && st.driver.value.at == |steps| ==> Recorded(st.saved) == |steps|
    ensures Idempotent(steps, start) ==> Consistent(steps, start, st.saved, st.world)
    ensures Idempotent(steps, start) && Recorded(st.saved) == |steps| ==> st.world == Progress(steps, |steps|, start)
  {
    RunInvariant(steps, start, events);
    hide Ordered, RerunsAfterBreak, RecordsCompletedWork, Idempotent;
  }

  // ---- the condition on step work is exact ----

  lemma RunAppend<W>(steps: seq<W -> W>, st: State<W>, events: seq<Event>, e: Event)
    ensures RunAll(steps, st, events + [e])
            == var r := RunAll(steps, st, events); if r.None? then None else Apply(steps, r.value, e)
  {
    assert (events + [e])[..|events|] == events;
  }

  /** The crash-free run up to step `k`. */
  lemma {:induction false} CleanRun<W>(steps: seq<W -> W>, start: W, k: nat) returns (events: seq<Event>, st: State<W>)
    requires k <= |steps|
    ensures RunAll(steps, State(None, start, None, []), events) == Some(st)
    ensures st.driver == Some(Driver(st.saved, k, false)) && Recorded(st.saved) == k
            && st.world == Progress(steps, k, start)
  {
    var init := State(None, start, None, []);
    if k == 0 {
      RunAppend(steps, init, [], Start);
      events, st := [] + [Start], init.(driver := Some(Driver(None, 0, false)));
    } else {
      events, st := CleanRun(steps, start, k - 1);
      RunAppend(steps, init, events, DoWork);
      RunAppend(steps, init, events + [DoWork], Save);
      events := events + [DoWork] + [Save];
      st := RunAll(steps, init, events).value;
    }
  }

  /** A resumed driver skips to the recorded step. */
  lemma {:induction false} SkipTo<W>(steps: seq<W -> W>, init: State<W>, events: seq<Event>, st: State<W>, k: nat)
    returns (longer: seq<Event>)
    requires RunAll(steps, init, events) == Some(st) && st.driver.None? && k <= Recorded(st.saved) <= |steps|
    ensures RunAll(steps, init, longer) == Some(st.(driver := Some(Driver(st.saved, k, false))))
  {
    if k == 0 {
      RunAppend(steps, init, events, Start);
      longer := events + [Start];
    } else {
      longer := SkipTo(steps, init, events, st, k - 1);
      RunAppend(steps, init, longer, Skip);
      longer := longer + [Skip];
    }
  }

  ghost predicate SavesAreExact<W>(steps: seq<W -> W>, start: W, events: seq<Event>) {
    var r := RunAll(steps, State(None, start, None, []), events + [Save]);
    r.Some? ==> Recorded(r.value.saved) <= |steps| && r.value.world == Progress(steps, Recorded(r.value.saved), start)
  }

  /** Every recorded step leaves the crash-free world, over every run, exactly when step work is idempotent. */
  lemma SavesAreExactIffIdempotent<W>(steps: seq<W -> W>, start: W)
    ensures Idempotent(steps, start) <==> forall events :: SavesAreExact(steps, start, events)
  {
    if Idempotent(steps, start) {
      forall events ensures SavesAreExact(steps, start, events) {
        RunAppend(steps, State(None, start, None, []), events, Save);
        RunInvariant(steps, start, events);
      }
    }
    if forall events :: SavesAreExact(steps, start, events) {
      forall k | 0 <= k < |steps| ensures steps[k](Progress(steps, k + 1, start)) == Progress(steps, k + 1, start) {
        RedoneStep(steps, start, k);
      }
    }
  }

  /** Step `k` redone after a crash between its work and its save. */
  lemma RedoneStep<W>(steps: seq<W -> W>, start: W, k: nat)
    requires k < |steps| && forall events :: SavesAreExact(steps, start, events)
    ensures steps[k](Progress(steps, k + 1, start)) == Progress(steps, k + 1, start)
  {
    var init := State(None, start, None, []);
    var events, st := CleanRun(steps, start, k);
    RunAppend(steps, init, events, DoWork);
    RunAppend(steps, init, events + [DoWork], Crash);
    events := events + [DoWork] + [Crash];
    events := SkipTo(steps, init, events, RunAll(steps, init, events).value, k);
    RunAppend(steps, init, events, DoWork);
    RunAppend(steps, init, events + [DoWork], Save);
    assert SavesAreExact(steps, start, events + [DoWork]);
  }
}

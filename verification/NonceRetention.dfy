/**
 * How long a consumed nonce must be kept: `config.rs` (the rule and its validation), the signed-request check in
 * `guards.rs`, and the two nonce stores.
 */
module NonceRetention {
  import opened Wrappers

  type Time = int

  /** `ADMIN_TIMESTAMP_WINDOW_SECS` and `SOVEREIGN_TIMESTAMP_WINDOW_SECS`. */
  const WINDOW: nat := 60

  const I64_MAX := 0x7FFF_FFFF_FFFF_FFFF
  const I64_MIN := -0x8000_0000_0000_0000

  /** `replay_span_secs`. */
  function ReplaySpan(window: int): int {
    2 * window
  }

  /** `retention_covers_replay`. */
  predicate RetentionCoversReplay(maxAge: int, window: int) {
    maxAge > ReplaySpan(window)
  }

  datatype ConfigError = Invalid

  /** The nonce checks of `validate_and_build`, on `u64` values. */
  function ValidateNonceConfig(interval: nat, maxAge: nat): Result<(), ConfigError> {
    if interval == 0 then Err(Invalid)
    else if maxAge <= I64_MAX && !RetentionCoversReplay(maxAge, WINDOW) then Err(Invalid)
    else if maxAge > I64_MAX then Err(Invalid)
    else Ok(())
  }

  // ---- the clock window ----

  function SaturatingI64(x: int): int {
    if x < I64_MIN then I64_MIN else if x > I64_MAX then I64_MAX else x
  }

  /** The timestamp check of `verify_admin_device_request`. */
  predicate InWindow(timestamp: int, now: int, window: nat) {
    !(timestamp < SaturatingI64(now - window) || timestamp > SaturatingI64(now + window))
  }

  /** Saturation never widens or narrows the window for an `i64` timestamp. */
  lemma WindowIsSymmetric(timestamp: int, now: int, window: nat)
    requires I64_MIN <= timestamp <= I64_MAX && I64_MIN <= now <= I64_MAX
    ensures InWindow(timestamp, now, window) <==> now - window <= timestamp <= now + window
  {}

  // ---- the store ----

  /** The row key: the signer and its nonce. */
  type Key = string

  /** What a signature covers, as far as replay goes. */
  datatype Request = Request(key: Key, timestamp: Time)

  function Insert(seen: map<Key, Time>, key: Key, now: Time): map<Key, Time> {
    if key in seen then seen else seen[key := now]
  }

  /** Rows at most as recent as `now - maxAge` go. */
  function Sweep(seen: map<Key, Time>, maxAge: int, now: Time): map<Key, Time> {
    map k | k in seen && seen[k] > now - maxAge :: seen[k]
  }

  class NonceStore {
    var seen: map<Key, Time>

    /** `insert_nonce_if_absent`. */
    method InsertNonceIfAbsent(key: Key, now: Time) returns (isNew: bool)
      modifies this
      ensures seen == Insert(old(seen), key, now)
      ensures isNew <==> key !in old(seen)
    {
      isNew := key !in seen;
      if isNew {
        seen := seen[key := now];
      }
    }

    /** `sweep_stale_nonces` of the admin store; a negative age is refused. */
    method SweepAdminNonces(maxAge: int, now: Time) returns (r: Result<nat, ()>)
      modifies this
      ensures maxAge < 0 ==> r.Err? && seen == old(seen)
      ensures maxAge >= 0 ==> seen == Sweep(old(seen), maxAge, now) && r == Ok(|old(seen).Keys - seen.Keys|)
    {
      if maxAge < 0 {
        return Err(());
      }
      var removed := DeleteStale(maxAge, now);
      return Ok(removed);
    }

    /** The delete of both stores, which reports how many rows went. */
    method DeleteStale(maxAge: int, now: Time) returns (removed: nat)
      modifies this
      ensures seen == Sweep(old(seen), maxAge, now) && removed == |old(seen).Keys - seen.Keys|
    {
      var stale := set k | k in seen && seen[k] <= now - maxAge;
      seen := map k | k in seen && seen[k] > now - maxAge :: seen[k];
      assert stale == old(seen).Keys - seen.Keys;
      removed := |stale|;
    }

    /** `sweep_stale_nonces` of the sovereign store, which refuses a retention that does not cover the span. */
    method SweepSovereignNonces(maxAge: int, now: Time) returns (r: Result<nat, ()>)
      modifies this
      ensures r.Ok? <==> RetentionCoversReplay(maxAge, WINDOW)
      ensures seen == if r.Ok? then Sweep(old(seen), maxAge, now) else old(seen)
      ensures r.Ok? ==> r.value == |old(seen).Keys - seen.Keys|
    {
      if !RetentionCoversReplay(maxAge, WINDOW) {
        return Err(());
      }
      var removed := DeleteStale(maxAge, now);
      return Ok(removed);
    }
  }

  // ---- runs ----

  /**
   * Requests in flight have passed the timestamp check at some time and still have to record their nonce, which they do
   * within `delay`; the log holds what was accepted, with the time its nonce was recorded.
   */
  datatype Params = Params(window: nat, maxAge: int, delay: nat)

  datatype Checked = Checked(request: Request, at: Time)

  datatype State = State(now: Time, seen: map<Key, Time>, flying: multiset<Checked>, accepted: seq<Checked>)

  datatype Action =
    | Tick(to: Time)
    | Check(request: Request)
    | Record(checked: Checked)
    | SweepAll

  function Step(p: Params, s: State, a: Action): Option<State> {
    match a
    case Tick(to) => if s.now <= to then Some(s.(now := to)) else None
    case Check(r) =>
      Some(if s.now - p.window <= r.timestamp <= s.now + p.window
           then s.(flying := s.flying + multiset{Checked(r, s.now)}) else s)
    case Record(c) =>
      if c !in s.flying || s.now > c.at + p.delay then None
      else
        var flown := s.(flying := s.flying - multiset{c});
        Some(if c.request.key in s.seen then flown
             else flown.(seen := Insert(s.seen, c.request.key, s.now),
               accepted := s.accepted + [Checked(c.request, s.now)]))
    case SweepAll => Some(s.(seen := Sweep(s.seen, p.maxAge, s.now)))
  }

  function Run(p: Params, actions: seq<Action>): Option<State>
    decreases |actions|
  {
    if actions == [] then Some(State(0, map[], multiset{}, []))
    else
      var s := Run(p, actions[..|actions| - 1]);
      if s.None? then None else Step(p, s.value, actions[|actions| - 1])
  }

  ghost predicate NoReplay(accepted: seq<Checked>) {
    forall i, j :: 0 <= i < j < |accepted| ==> accepted[i].request != accepted[j].request
  }

  /** No run accepts a request twice. */
  ghost predicate ReplaySafe(p: Params) {
    forall actions :: Run(p, actions).Some? ==> NoReplay(Run(p, actions).value.accepted)
  }

  ghost predicate Invariant(p: Params, s: State) {
    && (forall c :: c in s.flying ==> c.at <= s.now && c.at - p.window <= c.request.timestamp <= c.at + p.window)
    && (forall i :: 0 <= i < |s.accepted| ==> Remembered(p, s, s.accepted[i]))
    && NoReplay(s.accepted)
  }

  /** An accepted request's nonce is stored, or its retention is over. */
  ghost predicate Remembered(p: Params, s: State, c: Checked) {
    && c.request.timestamp - p.window <= c.at <= s.now
    && ((c.request.key in s.seen && s.seen[c.request.key] >= c.at) || s.now >= c.at + p.maxAge)
  }

  /** Recording a nonce that is absent. */
  lemma RecordKeepsInvariant(p: Params, s: State, c: Checked)
    requires p.maxAge > ReplaySpan(p.window) + p.delay
    requires Invariant(p, s) && Step(p, s, Record(c)).Some? && c.request.key !in s.seen
    ensures Invariant(p, Step(p, s, Record(c)).value)
  {
    var s' := Step(p, s, Record(c)).value;
    assert forall d :: d in s'.flying ==> d in s.flying;
    assert c in s.flying;
    forall i | 0 <= i < |s.accepted| ensures s.accepted[i].request != c.request && Remembered(p, s', s.accepted[i]) {
      assert Remembered(p, s, s.accepted[i]);
    }
    assert Remembered(p, s', Checked(c.request, s.now));
  }

  /** Steps that accept nothing. */
  lemma QuietStepKeepsInvariant(p: Params, s: State, s': State)
    requires Invariant(p, s) && s'.accepted == s.accepted && s'.now >= s.now && s'.flying <= s.flying
    requires s'.seen == s.seen || (s'.now == s.now && s'.seen == Sweep(s.seen, p.maxAge, s.now))
    ensures Invariant(p, s')
  {
    assert forall d :: d in s'.flying ==> d in s.flying;
    forall i | 0 <= i < |s.accepted| ensures Remembered(p, s', s.accepted[i]) {
      assert Remembered(p, s, s.accepted[i]);
    }
  }

  lemma StepKeepsInvariant(p: Params, s: State, a: Action)
    requires p.maxAge > ReplaySpan(p.window) + p.delay
    requires Invariant(p, s) && Step(p, s, a).Some?
    ensures Invariant(p, Step(p, s, a).value)
  {
    var s' := Step(p, s, a).value;
    match a
    case Record(c) =>
      if c.request.key !in s.seen {
        RecordKeepsInvariant(p, s, c);
      } else {
        QuietStepKeepsInvariant(p, s, s');
      }
    case Check(r) =>
      forall i | 0 <= i < |s.accepted| ensures Remembered(p, s', s.accepted[i]) {
        assert Remembered(p, s, s.accepted[i]);
      }
    case _ => QuietStepKeepsInvariant(p, s, s');
  }

  lemma {:induction false} RunKeepsInvariant(p: Params, actions: seq<Action>)
    requires p.maxAge > ReplaySpan(p.window) + p.delay && Run(p, actions).Some?
    ensures Invariant(p, Run(p, actions).value)
    decreases |actions|
  {
    if actions != [] {
      var init := actions[..|actions| - 1];
      RunKeepsInvariant(p, init);
      StepKeepsInvariant(p, Run(p, init).value, actions[|actions| - 1]);
    }
  }

  /** A retention one step too short lets a request in at both edges of its window. */
  lemma ReplayRun(p: Params) returns (actions: seq<Action>)
    requires p.maxAge <= ReplaySpan(p.window) + p.delay
    ensures Run(p, actions).Some? && !NoReplay(Run(p, actions).value.accepted)
  {
    var r := Request("nonce", p.window);
    var (early, late) := (Checked(r, 0), Checked(r, 2 * p.window));
    actions := [];
    var s := State(0, map[], multiset{}, []);
    actions, s := Extend(p, actions, s, Check(r));
    assert s.flying == multiset{early};
    actions, s := Extend(p, actions, s, Record(early));
    assert s.flying == multiset{} && s.seen == map["nonce" := 0];
    actions, s := Extend(p, actions, s, Tick(2 * p.window));
    actions, s := Extend(p, actions, s, Check(r));
    assert s.flying == multiset{late};
    actions, s := Extend(p, actions, s, Tick(2 * p.window + p.delay));
    actions, s := Extend(p, actions, s, SweepAll);
    assert "nonce" !in s.seen;
    actions, s := Extend(p, actions, s, Record(late));
    assert s.accepted[0].request == s.accepted[1].request;
  }

  lemma Extend(p: Params, actions: seq<Action>, s: State, a: Action) returns (longer: seq<Action>, s': State)
    requires Run(p, actions) == Some(s) && Step(p, s, a).Some?
    ensures longer == actions + [a] && s' == Step(p, s, a).value && Run(p, longer) == Some(s')
  {
    longer, s' := actions + [a], Step(p, s, a).value;
    assert longer[..|actions|] == actions;
  }

  /** Exactly the retentions above twice the window plus the check-to-record delay keep every run free of replays. */
  lemma ReplaySafeIff(p: Params)
    ensures ReplaySafe(p) <==> p.maxAge > ReplaySpan(p.window) + p.delay
  {
    if p.maxAge > ReplaySpan(p.window) + p.delay {
      forall actions | Run(p, actions).Some? ensures NoReplay(Run(p, actions).value.accepted) {
        RunKeepsInvariant(p, actions);
      }
    } else {
      var actions := ReplayRun(p);
    }
  }

  /** When check and record share one instant, the rule of `retention_covers_replay` is exact. */
  lemma CoverageIsExact(window: nat, maxAge: int)
    ensures ReplaySafe(Params(window, maxAge, 0)) <==> RetentionCoversReplay(maxAge, window)
  {
    ReplaySafeIff(Params(window, maxAge, 0));
  }

  /** The configuration check admits exactly the replay-safe retentions that fit an `i64`, with a sweep that can run. */
  lemma ConfigAdmitsExactlySafe(interval: nat, maxAge: nat)
    ensures ValidateNonceConfig(interval, maxAge).Ok?
            <==> interval > 0 && maxAge <= I64_MAX && ReplaySafe(Params(WINDOW, maxAge, 0))
  {
    CoverageIsExact(WINDOW, maxAge);
  }

  /** An admitted retention absorbs any delay short of its margin over the span, and no longer one. */
  lemma MarginIsTheDelay(interval: nat, maxAge: nat, delay: nat)
    requires ValidateNonceConfig(interval, maxAge).Ok?
    ensures ReplaySafe(Params(WINDOW, maxAge, delay)) <==> delay < maxAge - ReplaySpan(WINDOW)
  {
    ReplaySafeIff(Params(WINDOW, maxAge, delay));
  }
}

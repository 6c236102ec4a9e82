/** Blob garbage collection: ownership per account over shared content-addressed files (`blob_gc.rs`, `blobs.rs`). */
module BlobGc {
  import opened Wrappers
  import opened BlobPaths

  type Did = string
  type Time = int

  datatype Key = Key(did: Did, cid: Cid)

  /** An ownership row: `tempUntil` is its grace deadline, `None` when permanent. */
  datatype Owner = Owner(refCount: nat, tempUntil: Option<Time>)

  /** The `blobs` table (path by CID), the `blob_owners` table and the files on disk. */
  datatype Store = Store(blobs: map<Cid, string>, owners: map<Key, Owner>, files: set<string>)

  /** How often each account's records link each CID. */
  type References = map<Did, map<Cid, nat>>

  function Refs(refs: References, d: Did): map<Cid, nat> {
    if d in refs then refs[d] else map[]
  }

  function RowAt(s: Store, k: Key): Option<Owner> {
    if k in s.owners then Some(s.owners[k]) else None
  }

  // ---- the statements ----

  /** `upsert_owner_referenced`: pin or adopt with the true count; a CID without a blob row is left alone. */
  function Upsert(s: Store, k: Key, n: nat): Store {
    if k.cid in s.blobs then s.(owners := s.owners[k := Owner(n, None)]) else s
  }

  /** Whether the upsert inserts or changes a row. */
  predicate UpsertChanges(s: Store, k: Key, n: nat) {
    k.cid in s.blobs && RowAt(s, k) != Some(Owner(n, None))
  }

  /** `release_owner`: a permanent row starts its grace clock. */
  function Release(s: Store, k: Key, until: Time): Store {
    if k in s.owners && s.owners[k].tempUntil.None? then s.(owners := s.owners[k := Owner(0, Some(until))]) else s
  }

  predicate Expired(o: Owner, now: Time) {
    o.tempUntil.Some? && o.tempUntil.value < now && o.refCount == 0
  }

  /** `delete_expired_owner`. */
  function DeleteExpiredOwner(s: Store, k: Key, now: Time): Store {
    if k in s.owners && Expired(s.owners[k], now) then s.(owners := s.owners - {k}) else s
  }

  predicate Owned(s: Store, c: Cid) {
    exists k :: k in s.owners && k.cid == c
  }

  /** `delete_blob_if_unowned`: the row, when no owner is left. */
  function DeleteUnownedBlob(s: Store, c: Cid): Store {
    if c in s.blobs && !Owned(s, c) then s.(blobs := s.blobs - {c}) else s
  }

  function Unlink(s: Store, path: string): Store {
    s.(files := s.files - {path})
  }

  /** `insert_blob`: the physical row once per CID, and the account's grace clock unless it already references it. */
  function InsertBlob(s: Store, k: Key, until: Time): Store {
    var blobs := if k.cid in s.blobs then s.blobs else s.blobs[k.cid := PathOf(k.cid)];
    var owner := if k !in s.owners then Owner(0, Some(until))
                 else if s.owners[k].refCount == 0 then s.owners[k].(tempUntil := Some(until)) else s.owners[k];
    s.(blobs := blobs, owners := s.owners[k := owner])
  }

  // ---- reconciling an account ----

  /**
   * An account's row once its references are written back: referenced rows pinned, permanent ones no longer used
   * released.
   */
  function Target(s: Store, refs: map<Cid, nat>, k: Key, grace: Time): Option<Owner> {
    if k.cid in refs then PinnedRow(s, refs, k) else ReleasedRow(s, k, grace)
  }

  function PinnedRow(s: Store, refs: map<Cid, nat>, k: Key): Option<Owner>
    requires k.cid in refs
  {
    if k.cid in s.blobs then Some(Owner(refs[k.cid], None)) else RowAt(s, k)
  }

  function ReleasedRow(s: Store, k: Key, grace: Time): Option<Owner> {
    if k in s.owners && s.owners[k].tempUntil.None? then Some(Owner(0, Some(grace))) else RowAt(s, k)
  }

  /**
   * From `s` to `s'` the accounts in `done` were reconciled, those in `failed` up to some statement, others not at
   * all.
   */
  ghost predicate Reconciled(s: Store, s': Store, refs: References, grace: Did -> Time, done: set<Did>,
                             failed: set<Did>) {
    && s'.blobs == s.blobs && s'.files == s.files
    && forall k: Key {:trigger RowAt(s', k)} ::
         var target := Target(s, Refs(refs, k.did), k, grace(k.did));
         if k.did in done then RowAt(s', k) == target
         else if k.did in failed then RowAt(s', k) == target || RowAt(s', k) == RowAt(s, k)
         else RowAt(s', k) == RowAt(s, k)
  }

  /** The CIDs whose rows reconciling account `d` inserts or changes. */
  function Pinned(s: Store, d: Did, refs: map<Cid, nat>): set<Cid> {
    set c | c in refs && c in s.blobs
            && (Key(d, c) in s.owners ==>
                  s.owners[Key(d, c)].refCount != refs[c] || s.owners[Key(d, c)].tempUntil.Some?)
  }

  /** How many statements it takes: a pin for each referenced CID, a release for each owned one that is not. */
  function Statements(s: Store, d: Did, refs: map<Cid, nat>): nat {
    |refs.Keys| + |(set k | k in s.owners && k.did == d :: k.cid) - refs.Keys|
  }

  /** The CIDs whose permanent rows it releases. */
  function Loosened(s: Store, d: Did, refs: map<Cid, nat>): set<Cid> {
    set k | k in s.owners && k.did == d && k.cid !in refs && s.owners[k].tempUntil.None? :: k.cid
  }

  function PinnedRows(s: Store, refs: References, dids: set<Did>): set<Key> {
    set d, c | d in dids && c in Pinned(s, d, Refs(refs, d)) :: Key(d, c)
  }

  function LoosenedRows(s: Store, refs: References, dids: set<Did>): set<Key> {
    set d, c | d in dids && c in Loosened(s, d, Refs(refs, d)) :: Key(d, c)
  }

  // ---- sweeping expired rows ----

  /** The sweep from `s` to `s'` removed the rows `gone`, and blobs and files only behind them. */
  ghost predicate Swept(s: Store, s': Store, gone: set<Key>) {
    && s'.owners == s.owners - gone
    && (forall c :: c in s'.blobs ==> c in s.blobs && s'.blobs[c] == s.blobs[c])
    && (forall c :: c in s.blobs && c !in s'.blobs ==> !Owned(s', c) && exists k :: k in gone && k.cid == c)
    && s'.files <= s.files
    && (forall p :: p in s.files && p !in s'.files ==> exists c :: c in s.blobs && c !in s'.blobs && s.blobs[c] == p)
  }

  /** A sweep in which no statement failed also reclaims everything it can. */
  ghost predicate SweptFully(s: Store, s': Store, gone: set<Key>) {
    && Swept(s, s', gone)
    && (forall k :: k in gone && k.cid in s'.blobs ==> Owned(s', k.cid))
    && (forall c :: c in s.blobs && c !in s'.blobs ==> s.blobs[c] !in s'.files)
  }

  /** The rows the sweep lists. */
  ghost predicate ExpiredRows(s: Store, now: Time, listed: set<Key>) {
    forall k :: k in listed <==> k in s.owners && Expired(s.owners[k], now)
  }

  // ---- what always holds ----

  /**
   * Owner rows have blob rows, blob rows have files at the path their CID names, and a deadline means no references.
   */
  ghost predicate Consistent(s: Store) {
    && (forall k :: k in s.owners ==> k.cid in s.blobs)
    && (forall c :: c in s.blobs ==> s.blobs[c] == PathOf(c) && PathOf(c) in s.files)
    && (forall k :: k in s.owners && s.owners[k].tempUntil.Some? ==> s.owners[k].refCount == 0)
  }

  // ---- the collector ----

  datatype Fault = NoFault | AtOwner | AtBlob | AtUnlink

  datatype Stats = Stats(reconciled: nat, released: nat, expired: nat, deleted: nat, errors: nat, failed: bool)

  class Collector {
    var blobs: map<Cid, string>
    var owners: map<Key, Owner>
    var files: set<string>

    function S(): Store
      reads this
    {
      Store(blobs, owners, files)
    }

    /** `upsert_owner_referenced`, which says whether it inserted or changed a row. */
    method PinOne(k: Key, n: nat) returns (changed: bool)
      modifies this`owners
      ensures S() == Upsert(old(S()), k, n) && changed == UpsertChanges(old(S()), k, n)
    {
      changed := UpsertChanges(S(), k, n);
      if k.cid in blobs {
        owners := owners[k := Owner(n, None)];
      }
    }

    /** `release_owner`, which says whether it started the grace clock of a permanent row. */
    method ReleaseOne(k: Key, until: Time) returns (changed: bool)
      modifies this`owners
      ensures S() == Release(old(S()), k, until)
      ensures changed <==> k in old(owners) && old(owners)[k].tempUntil.None?
    {
      changed := k in owners && owners[k].tempUntil.None?;
      if changed {
        owners := owners[k := Owner(0, Some(until))];
      }
    }

    /** The pins of one account, failing before statement `fail` if that is given. */
    method PinReferenced(d: Did, refs: map<Cid, nat>, fail: Option<nat>) returns (r: Result<nat, ()>,
                         ghost todo: set<Cid>)
      modifies this`owners
      ensures Pinning(old(S()), S(), d, refs, todo)
      ensures r.Ok? <==> fail.None? || |refs.Keys| <= fail.value
      ensures r.Ok? ==> todo == {} && r.value == |Pinned(old(S()), d, refs)|
    {
      ghost var s := S();
      var count, reconciled := 0, 0;
      var rest := refs.Keys;
      PinEnds(s, d, refs);
      hide Pinning, Pinned, UpsertChanges, PinnedCount, Upsert, S;
      while rest != {}
        invariant Pinning(s, S(), d, refs, rest) && rest <= refs.Keys
        invariant count + |rest| == |refs.Keys| && (fail.Some? ==> count <= fail.value)
        invariant reconciled == PinnedCount(s, d, refs, rest)
      {
        if fail == Some(count) {
          return Err(()), rest;
        }
        var c :| c in rest;
        ghost var before := S();
        PinStep(s, before, d, refs, rest, c);
        var changed := PinOne(Key(d, c), refs[c]);
        reconciled := reconciled + if changed then 1 else 0;
        rest, count := rest - {c}, count + 1;
      }
      return Ok(reconciled), {};
    }

    /** The releases of one account. */
    method ReleaseUnused(d: Did, refs: map<Cid, nat>, unused: set<Cid>, grace: Time, fail: Option<nat>)
      returns (r: Result<nat, ()>, ghost todo: set<Cid>)
      requires unused !! refs.Keys && Unused(S(), d, refs) <= unused
      modifies this`owners
      ensures Releasing(old(S()), S(), d, refs, grace, todo)
      ensures r.Ok? <==> fail.None? || |unused| <= fail.value
      ensures r.Ok? ==> todo == {} && r.value == |Loosened(old(S()), d, refs)|
    {
      hide Unused, Releasing, Loosened, LoosenedCount, Release;
      ghost var s := S();
      var count, released := 0, 0;
      var rest := unused;
      ReleaseEnds(s, d, refs, grace, rest);
      while rest != {}
        invariant Releasing(s, S(), d, refs, grace, rest) && rest !! refs.Keys
        invariant count + |rest| == |unused| && (fail.Some? ==> count <= fail.value)
        invariant released == LoosenedCount(s, d, refs, rest)
      {
        if fail == Some(count) {
          return Err(()), rest;
        }
        var c :| c in rest;
        var row := Key(d, c);
        ghost var before := S();
        ReleaseStep(s, before, d, refs, grace, rest, c);
        var changed := ReleaseOne(row, grace);
        released := released + if changed then 1 else 0;
        rest, count := rest - {c}, count + 1;
      }
      return Ok(released), {};
    }

    /**
     * `reconcile_account`, failing before its statement number `fail` if that is given. The rows of the account end up
     * at their targets, or each at its target or where it was; nothing else moves.
     */
    method ReconcileAccount(d: Did, refs: map<Cid, nat>, grace: Time,
                            fail: Option<nat>) returns (r: Result<(nat, nat), ()>)
      modifies this
      ensures blobs == old(blobs) && files == old(files)
      ensures forall k: Key {:trigger RowAt(S(), k)} ::
                var target := Target(old(S()), refs, k, grace);
                if k.did != d then RowAt(S(), k) == RowAt(old(S()), k)
                else if r.Ok? then RowAt(S(), k) == target
                else RowAt(S(), k) == target || RowAt(S(), k) == RowAt(old(S()), k)
      ensures r.Ok? <==> fail.None? || Statements(old(S()), d, refs) <= fail.value
      ensures r.Ok? ==> r.value == (|Pinned(old(S()), d, refs)|, |Loosened(old(S()), d, refs)|)
    {
      hide Pinned, Loosened, Pinning, Releasing;
      ghost var s := S();
      var owned := set k | k in owners && k.did == d :: k.cid;
      var reconciled, todo := PinReferenced(d, refs, fail);
      ghost var mid := S();
      if reconciled.Err? {
        PartlyReconciled(s, mid, mid, d, refs, grace, todo, {});
        return Err(());
      }
      PinningUntouched(s, mid, d, refs);
      var n := |refs.Keys|;
      var rest := if fail.Some? && fail.value >= n then Some(fail.value - n) else None;
      var released, left := ReleaseUnused(d, refs, owned - refs.Keys, grace, rest);
      Reconciling(s, mid, S(), d, refs, grace, left);
      return if released.Err? then Err(()) else Ok((reconciled.value, released.value));
    }

    /**
     * `sweep_expired_owner`: the row if still expired, then the blob row if that was its last owner, then its file.
     * A statement that fails ends it there.
     */
    method SweepExpiredOwner(k: Key, now: Time, fault: Fault) returns (r: Result<(bool, bool), ()>)
      modifies this
      ensures fault == AtOwner ==> r.Err? && S() == old(S())
      ensures r.Err? <==>
                || fault == AtOwner
                || (old(k in owners && Expired(owners[k], now)) && Breaks(old(S()), S(), k, fault))
      ensures r.Ok? ==> (r.value.0 <==> old(k in owners && Expired(owners[k], now)))
      ensures r.Ok? ==> (r.value.1 <==> k.cid in old(blobs) && k.cid !in blobs)
      ensures S() == SweptOwner(old(S()), k, now, fault)
    {
      if fault == AtOwner {
        return Err(());
      }
      if k !in owners || !Expired(owners[k], now) {
        return Ok((false, false));
      }
      owners := owners - {k};
      assert k in old(owners) && k !in owners;
      if fault == AtBlob {
        return Err(());
      }
      if k.cid !in blobs || Owned(S(), k.cid) {
        return Ok((true, false));
      }
      var path := blobs[k.cid];
      blobs := blobs - {k.cid};
      if fault == AtUnlink {
        return Err(());
      }
      files := files - {path};
      return Ok((true, true));
    }

    /** Phase 1: reconcile every candidate, remembering the accounts that failed. */
    method ReconcileAll(refs: References, grace: Did -> Time, fail: Did -> Option<nat>)
      returns (reconciled: nat, released: nat, unreconciled: set<Did>)
      modifies this
      ensures Reconciled(old(S()), S(), refs, grace, Candidates(old(S()), refs) - unreconciled, unreconciled)
      ensures unreconciled == Failing(old(S()), refs, fail)
      ensures reconciled == |PinnedRows(old(S()), refs, Candidates(old(S()), refs) - unreconciled)|
      ensures released == |LoosenedRows(old(S()), refs, Candidates(old(S()), refs) - unreconciled)|
    {
      hide ReconcilingAll, Candidates, Target, Refs, Pinned, Loosened, Failing, Statements, Reconciled;
      hide PinnedRows, LoosenedRows, Behind;
      reconciled, released, unreconciled := 0, 0, {};
      ghost var s, done := S(), {};
      var todo := Candidates(S(), refs);
      NoneReconciled(s, refs, grace);
      FailingAreCandidates(s, refs, fail);
      BehindStarts(Failing(s, refs, fail), todo);
      while todo != {}
        invariant ReconcilingAll(s, S(), refs, grace, done, unreconciled, todo, reconciled, released)
        invariant Behind(unreconciled, Failing(s, refs, fail), todo)
      {
        var d :| d in todo;
        ghost var before := S();
        BehindStep(unreconciled, Failing(s, refs, fail), todo, d);
        WaitingStatements(s, before, refs, grace, fail, done, unreconciled, todo, d, reconciled, released);
        var r := ReconcileAccount(d, Refs(refs, d), grace(d), fail(d));
        if r.Ok? {
          OneMoreReconciled(s, before, S(), refs, grace, done, unreconciled, todo, d, reconciled, released, r.value.0,
            r.value.1);
          reconciled, released := reconciled + r.value.0, released + r.value.1;
          done := done + {d};
        } else {
          OneMoreFailed(s, before, S(), refs, grace, done, unreconciled, todo, d, reconciled, released);
          unreconciled := unreconciled + {d};
        }
        todo := todo - {d};
      }
      AllReconciled(s, S(), refs, grace, done, unreconciled, reconciled, released);
      BehindEnds(unreconciled, Failing(s, refs, fail));
    }

    /** One listed row of the sweep that took `mid` here. */
    method SweepOne(ghost mid: Store, ghost now: Time, ghost out: set<Did>, ghost clean: bool, ghost gone: set<Key>,
                    ghost rest: set<Key>,
                    k: Key, late: Time, fault: Fault)
      returns (r: Result<(bool, bool), ()>, ghost gone': set<Key>)
      requires Sweeping(mid, S(), now, out, clean, gone, rest) && k in rest && k.did !in out
      requires late >= now && (clean ==> fault == NoFault)
      modifies this
      ensures Sweeping(mid, S(), now, out, clean, gone', rest - {k})
      ensures S() == SweptOwner(old(S()), k, late, fault)
      ensures |gone'| == |gone| + if fault == AtOwner then 0 else 1
      ensures r.Err? <==> Breaks(old(S()), S(), k, fault)
      ensures r.Ok? ==> r.value.0 && (r.value.1 <==> k.cid in old(S()).blobs && k.cid !in S().blobs)
      ensures gone' == if fault == AtOwner then gone else gone + {k}
      ensures r.Ok? ==> Dropped(mid, S()) == Dropped(mid, old(S())) + if r.value.1 then 1 else 0
    {
      ghost var before := S();
      SweepingListed(mid, before, now, out, clean, gone, rest, k, late);
      hide Sweeping, Swept, SweptFully, Dropped, Expired, DeleteUnownedBlob;
      r := SweepExpiredOwner(k, late, fault);
      gone' := if fault == AtOwner then gone else gone + {k};
      SweepStep(mid, before, S(), now, out, clean, gone, rest, k, late, fault);
    }

    /**
     * Phase 2: sweep the rows expired at `now`, leaving unreconciled accounts out. `late` is the clock at each
     * deletion.
     */
    method SweepAll(unreconciled: set<Did>, now: Time, late: Key -> Time, fault: Key -> Fault)
      returns (expired: nat, deleted: nat, errors: nat, ghost gone: set<Key>, ghost last: set<Key>,
               ghost visits: seq<Visit>)
      requires forall k :: late(k) >= now
      modifies this
      ensures S() == Visited(old(S()), visits)
      ensures forall v :: v in visits ==> v.late == late(v.k) && v.fault == fault(v.k)
      ensures Swept(old(S()), S(), gone)
      ensures var listed := Listed(old(S()), now, unreconciled);
              && gone == (set k | k in listed && fault(k) != AtOwner)
              && Reclaimed(old(S()), S(), fault, gone, last)
              && errors == |Broken(old(S()), fault, listed, last)| && expired == |listed| - errors
              && deleted == |Finished(old(S()), fault, last)|
      ensures (forall k :: fault(k) == NoFault) && unreconciled == {} ==>
                SweptFully(old(S()), S(), gone) && ExpiredRows(old(S()), now, gone)
      ensures (forall k :: fault(k) == NoFault) ==> errors == 0
      ensures errors == 0 ==> expired == |gone| && deleted == Dropped(old(S()), S())
    {
      hide Sweeping, Swept, SweptFully, ExpiredRows, SweepTallies, Dropped, Listed, SweptOwner, LastAfter;
      hide Reclaimed, Broken, Finished, Behind;
      expired, deleted, errors, gone, last, visits := 0, 0, 0, {}, {}, [];
      ghost var mid, clean, seen := S(), forall k :: fault(k) == NoFault, {};
      var rest := set k | k in owners && Expired(owners[k], now);
      SweepBegins(mid, now, unreconciled, clean, rest);
      NothingReclaimed(mid, fault);
      ListedRows(mid, now, unreconciled, rest);
      BehindStarts(Listed(mid, now, unreconciled), rest);
      while rest != {}
        invariant Sweeping(mid, S(), now, unreconciled, clean, gone, rest)
        invariant S() == Visited(mid, visits)
        invariant forall v :: v in visits ==> v.late == late(v.k) && v.fault == fault(v.k)
        invariant Behind(seen, Listed(mid, now, unreconciled), rest)
        invariant forall k :: k in rest ==> (k in Listed(mid, now, unreconciled) <==> k.did !in unreconciled)
        invariant SweepTallies(mid, S(), fault, seen, gone, last, expired, deleted, errors)
        invariant clean ==> errors == 0
        invariant errors == 0 ==> expired == |gone| && deleted == Dropped(mid, S())
      {
        var k :| k in rest;
        BehindStep(seen, Listed(mid, now, unreconciled), rest, k);
        if k.did !in unreconciled {
          var r;
          ghost var before, was := S(), gone;
          SweepingListed(mid, before, now, unreconciled, clean, gone, rest, k, late(k));
          r, gone := SweepOne(mid, now, unreconciled, clean, gone, rest, k, late(k), fault(k));
          VisitedMore(mid, visits, Visit(k, late(k), fault(k)));
          visits := visits + [Visit(k, late(k), fault(k))];
          ghost var counts := (expired, deleted, errors);
          if r.Ok? {
            expired := expired + 1;
            deleted := deleted + if r.value.1 then 1 else 0;
          } else {
            errors := errors + 1;
          }
          last := SweepTalliesStep(mid, before, S(), fault, seen, was, gone, last, counts, expired, deleted, errors,
            k, late(k));
          seen := seen + {k};
        } else {
          SweepingSkips(mid, S(), now, unreconciled, clean, gone, rest, k);
        }
        rest := rest - {k};
      }
      SweepingDone(mid, S(), now, unreconciled, clean, gone);
      BehindEnds(seen, Listed(mid, now, unreconciled));
      SweepTalliesDone(mid, S(), now, unreconciled, fault, seen, gone, last, expired, deleted, errors);
    }

    /**
     * `run_blob_gc`. `grace` gives each account's fresh deadline. The pass reconciles into `mid`, failing exactly the
     * accounts one of whose statements fails, then visits every expired row of the others: each goes unless its own
     * delete failed, and each blob that loses its last owner goes with it unless that visit broke off.
     */
    method RunBlobGc(refs: References, grace: Did -> Time, sweepNow: Time, late: Key -> Time,
                     fail: Did -> Option<nat>, fault: Key -> Fault, listsCandidates: bool, listsExpired: bool)
      returns (stats: Stats, ghost failed: set<Did>, ghost mid: Store, ghost gone: set<Key>, ghost last: set<Key>,
               ghost visits: seq<Visit>)
      requires forall k :: late(k) >= sweepNow
      modifies this
      ensures stats.failed <==> !listsCandidates || !listsExpired
      ensures !listsCandidates ==> S() == old(S()) && stats == Stats(0, 0, 0, 0, 0, true)
      ensures listsCandidates ==>
                && failed == Failing(old(S()), refs, fail)
                && Reconciled(old(S()), mid, refs, grace, Candidates(old(S()), refs) - failed, failed)
                && stats.reconciled == |PinnedRows(old(S()), refs, Candidates(old(S()), refs) - failed)|
                && stats.released == |LoosenedRows(old(S()), refs, Candidates(old(S()), refs) - failed)|
      ensures listsCandidates && !listsExpired ==>
                && S() == mid && gone == {} && visits == []
                && stats.expired == stats.deleted == 0 && stats.errors == |failed|
      ensures listsCandidates && listsExpired ==>
                var listed := Listed(mid, sweepNow, failed);
                && Swept(mid, S(), gone) && gone == (set k | k in listed && fault(k) != AtOwner)
                && Reclaimed(mid, S(), fault, gone, last)
                && stats.errors == |failed| + |Broken(mid, fault, listed, last)|
                && stats.expired == |listed| - |Broken(mid, fault, listed, last)|
                && stats.deleted == |Finished(mid, fault, last)|
                && S() == Visited(mid, visits)
                && (forall v :: v in visits ==> v.late == late(v.k) && v.fault == fault(v.k))
      ensures listsCandidates ==>
                forall k :: k in gone ==> k in mid.owners && Expired(mid.owners[k], sweepNow) && k.did !in failed
      ensures listsCandidates && listsExpired && (forall d :: fail(d).None?) && (forall k :: fault(k) == NoFault) ==>
                failed == {} && SweptFully(mid, S(), gone) && ExpiredRows(mid, sweepNow, gone) && stats.errors == 0
      ensures |failed| <= stats.errors
      ensures listsCandidates && stats.errors == 0 ==> stats.expired == |gone| && stats.deleted == Dropped(mid, S())
    {
      stats, failed, mid, gone, last, visits := Stats(0, 0, 0, 0, 0, false), {}, S(), {}, {}, [];
      hide Reconciled, Swept, SweptFully, ExpiredRows, PinnedRows, LoosenedRows, Candidates, Reclaimed, Broken,
        Finished, Fails;
      if !listsCandidates {
        return stats.(failed := true), failed, mid, gone, last, visits;
      }
      var reconciled, released, unreconciled := ReconcileAll(refs, grace, fail);
      failed, mid := unreconciled, S();
      stats := Stats(reconciled, released, 0, 0, |unreconciled|, false);
      if !listsExpired {
        return stats.(failed := true), failed, mid, gone, last, visits;
      }
      var expired, deleted, errors;
      expired, deleted, errors, gone, last, visits := SweepAll(unreconciled, sweepNow, late, fault);
      stats := stats.(expired := expired, deleted := deleted, errors := stats.errors + errors);
    }
  }

  /** The account's reconcile fails at one of its statements. */
  predicate Fails(s: Store, refs: References, fail: Did -> Option<nat>, d: Did) {
    fail(d).Some? && fail(d).value < Statements(s, d, Refs(refs, d))
  }

  function Failing(s: Store, refs: References, fail: Did -> Option<nat>): set<Did> {
    set d | d in Candidates(s, refs) && Fails(s, refs, fail, d)
  }

  /** `list_gc_candidate_dids`: everyone with an owner row or a repo. */
  function Candidates(s: Store, refs: References): set<Did> {
    (set k | k in s.owners :: k.did) + refs.Keys
  }

  // ---- reconciling one account, statement by statement ----

  /** From `s` to `s'` the references of `d` outside `todo` were pinned. */
  ghost predicate Pinning(s: Store, s': Store, d: Did, refs: map<Cid, nat>, todo: set<Cid>) {
    && s'.blobs == s.blobs && s'.files == s.files
    && forall k: Key {:trigger RowAt(s', k)} ::
         RowAt(s', k) == if k.did == d && k.cid in refs && k.cid !in todo then PinnedRow(s, refs, k) else RowAt(s, k)
  }

  /** How many of the changing pins are done. */
  function PinnedCount(s: Store, d: Did, refs: map<Cid, nat>, todo: set<Cid>): nat {
    |Pinned(s, d, refs) - todo|
  }

  lemma PinEnds(s: Store, d: Did, refs: map<Cid, nat>)
    ensures Pinning(s, s, d, refs, refs.Keys) && PinnedCount(s, d, refs, refs.Keys) == 0
    ensures PinnedCount(s, d, refs, {}) == |Pinned(s, d, refs)|
  {
    assert Pinned(s, d, refs) - refs.Keys == {} && Pinned(s, d, refs) - {} == Pinned(s, d, refs);
  }

  lemma PinStep(s: Store, s1: Store, d: Did, refs: map<Cid, nat>, todo: set<Cid>, c: Cid)
    requires Pinning(s, s1, d, refs, todo) && c in todo && c in refs
    ensures Pinning(s, Upsert(s1, Key(d, c), refs[c]), d, refs, todo - {c})
    ensures PinnedCount(s, d, refs, todo - {c})
            == PinnedCount(s, d, refs, todo) + if UpsertChanges(s1, Key(d, c), refs[c]) then 1 else 0
  {
    var row := Key(d, c);
    assert RowAt(s1, row) == RowAt(s, row);
    assert forall k: Key ::
        RowAt(Upsert(s1, row, refs[c]), k) == if k == row then PinnedRow(s, refs, k) else RowAt(s1, k);
    OneLessToDo(Pinned(s, d, refs), todo, c);
  }

  /** From `s` to `s'` the unreferenced rows of `d` outside `todo` were released. */
  ghost predicate Releasing(s: Store, s': Store, d: Did, refs: map<Cid, nat>, grace: Time, todo: set<Cid>) {
    && s'.blobs == s.blobs && s'.files == s.files
    && forall k: Key {:trigger RowAt(s', k)} ::
         RowAt(s', k)
         == if k.did == d && k.cid !in refs && k.cid !in todo then ReleasedRow(s, k, grace) else RowAt(s, k)
  }

  function LoosenedCount(s: Store, d: Did, refs: map<Cid, nat>, todo: set<Cid>): nat {
    |Loosened(s, d, refs) - todo|
  }

  /** The CIDs `d` owns and no longer references. */
  function Unused(s: Store, d: Did, refs: map<Cid, nat>): set<Cid> {
    set k | k in s.owners && k.did == d && k.cid !in refs :: k.cid
  }

  lemma ReleaseEnds(s: Store, d: Did, refs: map<Cid, nat>, grace: Time, todo: set<Cid>)
    requires Unused(s, d, refs) <= todo
    ensures Releasing(s, s, d, refs, grace, todo) && LoosenedCount(s, d, refs, todo) == 0
    ensures LoosenedCount(s, d, refs, {}) == |Loosened(s, d, refs)|
  {
    assert Loosened(s, d, refs) - todo == {} && Loosened(s, d, refs) - {} == Loosened(s, d, refs);
  }

  lemma ReleaseStep(s: Store, s1: Store, d: Did, refs: map<Cid, nat>, grace: Time, todo: set<Cid>, c: Cid)
    requires Releasing(s, s1, d, refs, grace, todo) && c in todo && c !in refs
    ensures Releasing(s, Release(s1, Key(d, c), grace), d, refs, grace, todo - {c})
    ensures LoosenedCount(s, d, refs, todo - {c})
         == LoosenedCount(s, d, refs, todo)
            + if Key(d, c) in s1.owners && s1.owners[Key(d, c)].tempUntil.None? then 1 else 0
  {
    hide Loosened;
    var row := Key(d, c);
    assert RowAt(s1, row) == RowAt(s, row);
    LoosenedAt(s, d, refs, c);
    ReleasingMore(s, s1, d, refs, grace, todo, c);
    OneLessToDo(Loosened(s, d, refs), todo, c);
  }

  lemma ReleasingMore(s: Store, s1: Store, d: Did, refs: map<Cid, nat>, grace: Time, todo: set<Cid>, c: Cid)
    requires Releasing(s, s1, d, refs, grace, todo) && c in todo && c !in refs
    ensures Releasing(s, Release(s1, Key(d, c), grace), d, refs, grace, todo - {c})
  {
    var row := Key(d, c);
    var s2 := Release(s1, row, grace);
    assert RowAt(s1, row) == RowAt(s, row);
    forall k: Key ensures RowAt(s2, k) == if k == row then ReleasedRow(s, k, grace) else RowAt(s1, k) {}
  }

  lemma OneLessToDo(all: set<Cid>, todo: set<Cid>, c: Cid)
    requires c in todo
    ensures |all - (todo - {c})| == |all - todo| + if c in all then 1 else 0
  {
    assert all - (todo - {c}) == (all - todo) + if c in all then {c} else {};
  }

  lemma LoosenedAt(s: Store, d: Did, refs: map<Cid, nat>, c: Cid)
    ensures c in Loosened(s, d, refs) <==> c !in refs && Key(d, c) in s.owners && s.owners[Key(d, c)].tempUntil.None?
  {
    if c !in refs && Key(d, c) in s.owners && s.owners[Key(d, c)].tempUntil.None? {
      assert Key(d, c).did == d && Key(d, c).cid == c;
    }
  }

  /** Pinning leaves the rows to be released alone. */
  lemma PinningUntouched(s: Store, s': Store, d: Did, refs: map<Cid, nat>)
    requires Pinning(s, s', d, refs, {})
    ensures Loosened(s', d, refs) == Loosened(s, d, refs)
    ensures Unused(s', d, refs) <= Unused(s, d, refs)
  {
    hide Loosened;
    forall c ensures c in Loosened(s', d, refs) <==> c in Loosened(s, d, refs) {
      LoosenedAt(s, d, refs, c);
      LoosenedAt(s', d, refs, c);
      assert RowAt(s', Key(d, c)) == RowAt(s', Key(d, c));
    }
    forall k | k in s'.owners && k.did == d && k.cid !in refs ensures k in s.owners {
      assert RowAt(s', k) == RowAt(s, k);
    }
  }

  /** Pins that failed on the way. */
  lemma PartlyReconciled(s: Store, mid: Store, s': Store, d: Did, refs: map<Cid, nat>, grace: Time, todo: set<Cid>,
                         left: set<Cid>)
    requires Pinning(s, mid, d, refs, todo) && s' == mid
    ensures forall k: Key {:trigger RowAt(s', k)} ::
              RowAt(s', k) == RowAt(s, k) || (k.did == d && RowAt(s', k) == Target(s, refs, k, grace))
  {}

  /** All pins, and the releases outside `left`. */
  lemma Reconciling(s: Store, mid: Store, s': Store, d: Did, refs: map<Cid, nat>, grace: Time, left: set<Cid>)
    requires Pinning(s, mid, d, refs, {}) && Releasing(mid, s', d, refs, grace, left)
    ensures forall k: Key {:trigger RowAt(s', k)} ::
              RowAt(s', k)
              == if k.did == d && (k.cid in refs || k.cid !in left) then Target(s, refs, k, grace) else RowAt(s, k)
  {
    forall k: Key
      ensures RowAt(s', k)
           == if k.did == d && (k.cid in refs || k.cid !in left) then Target(s, refs, k, grace) else RowAt(s, k)
    {
      assert RowAt(mid, k) == RowAt(mid, k);
    }
  }

  // ---- reconciling every account ----

  /** From `s` to `s'` the accounts `done` were reconciled, `failed` broke off, and `todo` wait; the tallies so far. */
  ghost predicate ReconcilingAll(s: Store, s': Store, refs: References, grace: Did -> Time, done: set<Did>,
                                 failed: set<Did>,
                                 todo: set<Did>, reconciled: nat, released: nat) {
    && done !! todo && failed !! todo && done !! failed
    && done + failed + todo == Candidates(s, refs)
    && Reconciled(s, s', refs, grace, done, failed)
    && reconciled == |PinnedRows(s, refs, done)| && released == |LoosenedRows(s, refs, done)|
  }

  lemma NoneReconciled(s: Store, refs: References, grace: Did -> Time)
    ensures ReconcilingAll(s, s, refs, grace, {}, {}, Candidates(s, refs), 0, 0)
  {
    assert PinnedRows(s, refs, {}) == {} && LoosenedRows(s, refs, {}) == {};
  }

  lemma AllReconciled(s: Store, s': Store, refs: References, grace: Did -> Time, done: set<Did>, failed: set<Did>,
                      reconciled: nat, released: nat)
    requires ReconcilingAll(s, s', refs, grace, done, failed, {}, reconciled, released)
    ensures done == Candidates(s, refs) - failed
    ensures Reconciled(s, s', refs, grace, done, failed)
    ensures reconciled == |PinnedRows(s, refs, done)| && released == |LoosenedRows(s, refs, done)|
  {
    hide Reconciled, PinnedRows, LoosenedRows;
  }

  lemma FailingAreCandidates(s: Store, refs: References, fail: Did -> Option<nat>)
    ensures Failing(s, refs, fail) <= Candidates(s, refs)
  {}

  /** `part` is what of `all` is not left in `rest`. */
  ghost predicate Behind<T(!new)>(part: set<T>, all: set<T>, rest: set<T>) {
    forall x :: x in part <==> x in all && x !in rest
  }

  lemma BehindStarts<T(!new)>(all: set<T>, rest: set<T>)
    requires all <= rest
    ensures Behind({}, all, rest)
  {}

  lemma BehindStep<T(!new)>(part: set<T>, all: set<T>, rest: set<T>, x: T)
    requires Behind(part, all, rest) && x in rest
    ensures x !in part && Behind(if x in all then part + {x} else part, all, rest - {x})
  {}

  lemma BehindEnds<T(!new)>(part: set<T>, all: set<T>)
    requires Behind(part, all, {})
    ensures part == all
  {
    assert forall x :: x in part <==> x in all && x !in {};
  }

  /** An account still waiting takes the statements it took at the start. */
  lemma WaitingStatements(s: Store, s1: Store, refs: References, grace: Did -> Time, fail: Did -> Option<nat>,
                          done: set<Did>, failed: set<Did>, todo: set<Did>, d: Did, reconciled: nat, released: nat)
    requires ReconcilingAll(s, s1, refs, grace, done, failed, todo, reconciled, released) && d in todo
    ensures fail(d).Some? && fail(d).value < Statements(s1, d, Refs(refs, d)) <==> d in Failing(s, refs, fail)
  {
    forall k: Key | k.did == d ensures k in s1.owners <==> k in s.owners {
      assert RowAt(s1, k) == RowAt(s, k);
    }
    assert (set k | k in s1.owners && k.did == d :: k.cid) == (set k | k in s.owners && k.did == d :: k.cid);
  }

  /** Rows of one account, counted as keys. */
  function Keyed(d: Did, cids: set<Cid>): set<Key> {
    set c | c in cids :: Key(d, c)
  }

  lemma {:induction false} KeyedCount(d: Did, cids: set<Cid>)
    ensures |Keyed(d, cids)| == |cids|
    decreases |cids|
  {
    if cids == {} {
      assert Keyed(d, cids) == {};
    } else {
      var x :| x in cids;
      KeyedCount(d, cids - {x});
      assert Keyed(d, cids) == Keyed(d, cids - {x}) + {Key(d, x)};
    }
  }

  lemma PinnedRowsGrow(s: Store, refs: References, done: set<Did>, d: Did)
    requires d !in done
    ensures |PinnedRows(s, refs, done + {d})| == |PinnedRows(s, refs, done)| + |Pinned(s, d, Refs(refs, d))|
  {
    hide Pinned, Refs;
    var (rows, cids) := (PinnedRows(s, refs, done), Pinned(s, d, Refs(refs, d)));
    KeyedUnion(rows, d, cids);
    forall k ensures k in PinnedRows(s, refs, done + {d}) <==> k in rows + Keyed(d, cids) {
      assert k == Key(k.did, k.cid);
    }
    assert PinnedRows(s, refs, done + {d}) == rows + Keyed(d, cids);
  }

  lemma LoosenedRowsGrow(s: Store, refs: References, done: set<Did>, d: Did)
    requires d !in done
    ensures |LoosenedRows(s, refs, done + {d})| == |LoosenedRows(s, refs, done)| + |Loosened(s, d, Refs(refs, d))|
  {
    hide Loosened, Refs;
    var (rows, cids) := (LoosenedRows(s, refs, done), Loosened(s, d, Refs(refs, d)));
    KeyedUnion(rows, d, cids);
    forall k ensures k in LoosenedRows(s, refs, done + {d}) <==> k in rows + Keyed(d, cids) {
      assert k == Key(k.did, k.cid);
    }
    assert LoosenedRows(s, refs, done + {d}) == rows + Keyed(d, cids);
  }

  lemma KeyedUnion(rows: set<Key>, d: Did, cids: set<Cid>)
    requires forall k :: k in rows ==> k.did != d
    ensures |rows + Keyed(d, cids)| == |rows| + |cids|
  {
    KeyedCount(d, cids);
    assert rows !! Keyed(d, cids);
  }

  /** What an account will change is not touched by others. */
  lemma WaitingUntouched(s: Store, s1: Store, refs: References, grace: Did -> Time, done: set<Did>, failed: set<Did>,
                         d: Did)
    requires Reconciled(s, s1, refs, grace, done, failed) && d !in done && d !in failed
    ensures forall k: Key :: k.did == d ==> RowAt(s1, k) == RowAt(s, k)
    ensures Pinned(s1, d, Refs(refs, d)) == Pinned(s, d, Refs(refs, d))
    ensures Loosened(s1, d, Refs(refs, d)) == Loosened(s, d, Refs(refs, d))
  {
    var account := Refs(refs, d);
    hide Loosened, Refs, Target;
    forall k: Key | k.did == d ensures RowAt(s1, k) == RowAt(s, k) {}
    forall c ensures c in Loosened(s1, d, account) <==> c in Loosened(s, d, account) {
      LoosenedAt(s, d, account, c);
      LoosenedAt(s1, d, account, c);
      assert RowAt(s1, Key(d, c)) == RowAt(s, Key(d, c));
    }
    forall c ensures c in Pinned(s1, d, account) <==> c in Pinned(s, d, account) {
      assert RowAt(s1, Key(d, c)) == RowAt(s, Key(d, c));
    }
  }

  lemma OneMoreReconciled(s: Store, s1: Store, s2: Store, refs: References, grace: Did -> Time, done: set<Did>,
                          failed: set<Did>,
                          todo: set<Did>, d: Did, reconciled: nat, released: nat, pinned: nat, loosened: nat)
    requires ReconcilingAll(s, s1, refs, grace, done, failed, todo, reconciled, released) && d in todo
    requires pinned == |Pinned(s1, d, Refs(refs, d))| && loosened == |Loosened(s1, d, Refs(refs, d))|
    requires s2.blobs == s1.blobs && s2.files == s1.files
    requires forall k: Key {:trigger RowAt(s2, k)} ::
               RowAt(s2, k) == if k.did != d then RowAt(s1, k) else Target(s1, Refs(refs, d), k, grace(d))
    ensures ReconcilingAll(s, s2, refs, grace, done + {d}, failed, todo - {d}, reconciled + pinned, released + loosened)
  {
    hide Pinned, Loosened, PinnedRows, LoosenedRows, Candidates;
    PinnedRowsGrow(s, refs, done, d);
    LoosenedRowsGrow(s, refs, done, d);
    WaitingUntouched(s, s1, refs, grace, done, failed, d);
    ReconciledMore(s, s1, s2, refs, grace, done, failed, d, true);
    hide Reconciled, Target, Refs;
  }

  lemma OneMoreFailed(s: Store, s1: Store, s2: Store, refs: References, grace: Did -> Time, done: set<Did>,
                      failed: set<Did>,
                      todo: set<Did>, d: Did, reconciled: nat, released: nat)
    requires ReconcilingAll(s, s1, refs, grace, done, failed, todo, reconciled, released) && d in todo
    requires s2.blobs == s1.blobs && s2.files == s1.files
    requires forall k: Key {:trigger RowAt(s2, k)} ::
               RowAt(s2, k) == RowAt(s1, k) || (k.did == d && RowAt(s2, k) == Target(s1, Refs(refs, d), k, grace(d)))
    ensures ReconcilingAll(s, s2, refs, grace, done, failed + {d}, todo - {d}, reconciled, released)
  {
    hide PinnedRows, LoosenedRows, Candidates;
    ReconciledMore(s, s1, s2, refs, grace, done, failed, d, false);
    hide Reconciled, Target, Refs;
  }

  /** One more account reconciled. */
  lemma ReconciledMore(s: Store, s1: Store, s2: Store, refs: References, grace: Did -> Time, done: set<Did>,
                       failed: set<Did>, d: Did, ok: bool)
    requires Reconciled(s, s1, refs, grace, done, failed) && d !in done && d !in failed
    requires s2.blobs == s1.blobs && s2.files == s1.files
    requires forall k: Key {:trigger RowAt(s2, k)} ::
               var target := Target(s1, Refs(refs, d), k, grace(d));
               if k.did != d then RowAt(s2, k) == RowAt(s1, k)
               else if ok then RowAt(s2, k) == target else RowAt(s2, k) == target || RowAt(s2, k) == RowAt(s1, k)
    ensures Reconciled(s, s2, refs, grace, if ok then done + {d} else done, if ok then failed else failed + {d})
  {
    forall k: Key | k.did == d ensures Target(s1, Refs(refs, d), k, grace(d)) == Target(s, Refs(refs, d), k, grace(d)) {
      assert RowAt(s1, k) == RowAt(s, k);
    }
  }

  /**
   * A sweep begun at `mid` with `rest` still to visit and `gone` removed, in which no statement has failed if `clean`;
   * `out` are the accounts left out of it.
   */
  ghost predicate Sweeping(mid: Store, s: Store, now: Time, out: set<Did>, clean: bool, gone: set<Key>,
                           rest: set<Key>) {
    && gone !! rest
    && (forall k :: k in gone || k in rest ==> k in mid.owners && Expired(mid.owners[k], now))
    && (forall k :: k in gone ==> k.did !in out)
    && Swept(mid, s, gone)
    && (clean ==> SweptFully(mid, s, gone))
    && (clean ==> forall k :: k in mid.owners && Expired(mid.owners[k], now) && k.did !in out ==>
       k in gone || k in rest)
  }

  /** A row still to visit is expired where it stands. */
  lemma SweepingListed(mid: Store, s: Store, now: Time, out: set<Did>, clean: bool, gone: set<Key>, rest: set<Key>,
                       k: Key, late: Time)
    requires Sweeping(mid, s, now, out, clean, gone, rest) && k in rest && late >= now
    ensures k in s.owners && Expired(s.owners[k], late) && k !in gone && s.blobs.Keys <= mid.blobs.Keys
  {
    hide SweptFully;
  }

  /** What `sweep_expired_owner` leaves when it visits `k`. */
  function SweptOwner(s: Store, k: Key, now: Time, fault: Fault): Store {
    var t := DeleteExpiredOwner(s, k, now);
    if fault == AtOwner then s
    else if t == s || fault == AtBlob then t
    else if fault == AtUnlink || DeleteUnownedBlob(t, k.cid) == t then DeleteUnownedBlob(t, k.cid)
    else Unlink(DeleteUnownedBlob(t, k.cid), s.blobs[k.cid])
  }

  /** One visit of the sweep: the row, the clock at its deletion, and the statement that fails. */
  datatype Visit = Visit(k: Key, late: Time, fault: Fault)

  /** What a sweep leaves, visit by visit. */
  function Visited(s: Store, visits: seq<Visit>): Store
    decreases |visits|
  {
    if visits == [] then s
    else
      var (init, v) := (visits[..|visits| - 1], visits[|visits| - 1]);
      SweptOwner(Visited(s, init), v.k, v.late, v.fault)
  }

  lemma VisitedMore(s: Store, visits: seq<Visit>, v: Visit)
    ensures Visited(s, visits + [v]) == SweptOwner(Visited(s, visits), v.k, v.late, v.fault)
  {
    assert (visits + [v])[..|visits|] == visits;
  }

  /** One listed row visited. */
  lemma SweepStep(mid: Store, s1: Store, s2: Store, now: Time, out: set<Did>, clean: bool, gone: set<Key>,
                  rest: set<Key>,
                  k: Key, late: Time, fault: Fault)
    requires Sweeping(mid, s1, now, out, clean, gone, rest) && k in rest && k.did !in out
             && (clean ==> fault == NoFault)
    requires late >= now && s2 == SweptOwner(s1, k, late, fault)
    ensures var gone' := if fault == AtOwner then gone else gone + {k};
            && Sweeping(mid, s2, now, out, clean, gone', rest - {k})
            && |gone'| == |gone| + if fault == AtOwner then 0 else 1
    ensures Dropped(mid, s2) == Dropped(mid, s1) + if k.cid in s1.blobs && k.cid !in s2.blobs then 1 else 0
  {
    hide Swept, SweptFully, Dropped;
    SweepingListed(mid, s1, now, out, clean, gone, rest, k, late);
    DroppedOneMore(mid, s1, s2, k.cid);
    if fault != AtOwner {
      SweptMore(mid, s1, s2, gone, k, late, fault);
    }
    hide Sweeping, Expired;
    SweepingMore(mid, s1, s2, now, out, clean, gone, rest, k, fault);
  }

  lemma SweepingMore(mid: Store, s1: Store, s2: Store, now: Time, out: set<Did>, clean: bool, gone: set<Key>,
                     rest: set<Key>, k: Key, fault: Fault)
    requires Sweeping(mid, s1, now, out, clean, gone, rest) && k in rest && k.did !in out
             && (clean ==> fault == NoFault)
    requires fault == AtOwner ==> s2 == s1
    requires fault != AtOwner ==> Swept(mid, s2, gone + {k}) && (clean ==> SweptFully(mid, s2, gone + {k}))
    ensures var gone' := if fault == AtOwner then gone else gone + {k};
            && Sweeping(mid, s2, now, out, clean, gone', rest - {k})
            && |gone'| == |gone| + if fault == AtOwner then 0 else 1
  {
    hide Swept, SweptFully, Expired;
  }

  // ---- what a sweep reclaims, whatever fails ----

  /** The rows a sweep visits: expired, and not of an account left out. */
  function Listed(s: Store, now: Time, out: set<Did>): set<Key> {
    set k | k in s.owners && s.owners[k].tempUntil.Some? && s.owners[k].tempUntil.value < now
            && s.owners[k].refCount == 0 && k.did !in out
  }

  /** A visit that fails: at the row, behind it, or at the file of a blob row it deleted. */
  predicate Breaks(s: Store, s': Store, k: Key, fault: Fault) {
    fault == AtOwner || fault == AtBlob || (fault == AtUnlink && k.cid in s.blobs && k.cid !in s'.blobs)
  }

  /**
   * Of the rows `gone` from `mid`, those in `last` were the last of their CID, one for each CID that lost all its
   * owners. Where such a visit broke off decides what is left of the blob; no other blob row went.
   */
  ghost predicate Reclaimed(mid: Store, s: Store, fault: Key -> Fault, gone: set<Key>, last: set<Key>) {
    && last <= gone
    && (forall k, l :: k in last && l in last && k.cid == l.cid ==> k == l)
    && (forall c :: HasLast(last, c) <==> Owned(mid, c) && !Owned(s, c))
    && (forall k :: k in last && k.cid in mid.blobs ==> (k.cid in s.blobs <==> fault(k) == AtBlob))
    && (forall k :: k in last && k.cid in mid.blobs && fault(k) == NoFault ==> mid.blobs[k.cid] !in s.files)
    && (forall c :: c in mid.blobs && c !in s.blobs ==> HasLast(last, c))
  }

  predicate HasLast(last: set<Key>, c: Cid) {
    exists k :: k in last && k.cid == c
  }

  /** The visited rows whose visit failed. */
  function Broken(mid: Store, fault: Key -> Fault, seen: set<Key>, last: set<Key>): set<Key> {
    set k | k in seen && (fault(k) == AtOwner || fault(k) == AtBlob
                          || (fault(k) == AtUnlink && k in last && k.cid in mid.blobs))
  }

  /** The rows whose visit went on to delete the file. */
  function Finished(mid: Store, fault: Key -> Fault, last: set<Key>): set<Key> {
    set k | k in last && fault(k) == NoFault && k.cid in mid.blobs
  }

  ghost function LastAfter(s: Store, fault: Key -> Fault, last: set<Key>, k: Key): set<Key> {
    if fault(k) != AtOwner && !Owned(s, k.cid) then last + {k} else last
  }

  lemma ListedRows(s: Store, now: Time, out: set<Did>, rest: set<Key>)
    requires forall k :: k in rest <==> k in s.owners && Expired(s.owners[k], now)
    ensures Listed(s, now, out) <= rest && forall k :: k in rest ==> (k in Listed(s, now, out) <==> k.did !in out)
  {}

  /** Where a sweep from `mid` stands after visiting `seen`. */
  ghost predicate SweepTallies(mid: Store, s: Store, fault: Key -> Fault, seen: set<Key>, gone: set<Key>,
                               last: set<Key>,
                               expired: nat, deleted: nat, errors: nat) {
    && Swept(mid, s, gone)
    && gone == (set k | k in seen && fault(k) != AtOwner)
    && Reclaimed(mid, s, fault, gone, last)
    && errors == |Broken(mid, fault, seen, last)| && expired == |seen| - errors
    && deleted == |Finished(mid, fault, last)|
  }

  lemma SweepBegins(mid: Store, now: Time, out: set<Did>, clean: bool, rest: set<Key>)
    requires forall k :: k in rest <==> k in mid.owners && Expired(mid.owners[k], now)
    ensures Sweeping(mid, mid, now, out, clean, {}, rest) && Dropped(mid, mid) == 0
  {
    assert mid.blobs.Keys - mid.blobs.Keys == {};
  }

  lemma NothingReclaimed(mid: Store, fault: Key -> Fault)
    ensures SweepTallies(mid, mid, fault, {}, {}, {}, 0, 0, 0)
  {
    assert Broken(mid, fault, {}, {}) == {} && Finished(mid, fault, {}) == {};
  }

  lemma SweepTalliesDone(mid: Store, s: Store, now: Time, out: set<Did>, fault: Key -> Fault, seen: set<Key>,
                         gone: set<Key>,
                         last: set<Key>, expired: nat, deleted: nat, errors: nat)
    requires SweepTallies(mid, s, fault, seen, gone, last, expired, deleted, errors) && seen == Listed(mid, now, out)
    ensures gone == (set k | k in seen && fault(k) != AtOwner) && Reclaimed(mid, s, fault, gone, last)
    ensures errors == |Broken(mid, fault, seen, last)| && expired == |seen| - errors
    ensures deleted == |Finished(mid, fault, last)|
  {}

  lemma SweepTalliesStep(mid: Store, s: Store, s': Store, fault: Key -> Fault, seen: set<Key>, gone: set<Key>,
                         gone': set<Key>,
                         last: set<Key>, counts: (nat, nat, nat), expired: nat, deleted: nat, errors: nat, k: Key,
                         late: Time)
    returns (last': set<Key>)
    requires SweepTallies(mid, s, fault, seen, gone, last, counts.0, counts.1, counts.2)
    requires k !in seen && k in s.owners && Expired(s.owners[k], late) && s' == SweptOwner(s, k, late, fault(k))
    requires gone' == if fault(k) == AtOwner then gone else gone + {k}
    requires Breaks(s, s', k, fault(k)) ==> expired == counts.0 && deleted == counts.1 && errors == counts.2 + 1
    requires !Breaks(s, s', k, fault(k)) ==>
               && expired == counts.0 + 1 && errors == counts.2
               && deleted == counts.1 + if k.cid in s.blobs && k.cid !in s'.blobs then 1 else 0
    ensures SweepTallies(mid, s', fault, seen + {k}, gone', last', expired, deleted, errors)
  {
    hide Swept, SweptOwner, Owned, Reclaimed, HasLast, Broken, Finished, Expired, LastAfter;
    last' := LastAfter(s', fault, last, k);
    StillOwned(mid, s, fault, gone, last, k);
    VisitLeaves(s, k, late, fault(k));
    StepReclaimed(mid, s, s', fault, gone, last, k);
    StepCounts(mid, s, s', fault, seen, last, k);
    if fault(k) != AtOwner {
      SweptMore(mid, s, s', gone, k, late, fault(k));
    }
  }

  lemma StillOwned(mid: Store, s: Store, fault: Key -> Fault, gone: set<Key>, last: set<Key>, k: Key)
    requires Swept(mid, s, gone) && Reclaimed(mid, s, fault, gone, last) && k in s.owners
    ensures Owned(s, k.cid) && Owned(mid, k.cid) && !HasLast(last, k.cid) && last <= gone
    ensures forall c :: c in s.blobs ==> c in mid.blobs && s.blobs[c] == mid.blobs[c]
    ensures k.cid in mid.blobs ==> k.cid in s.blobs
  {
    assert k in mid.owners;
  }

  lemma StepCounts(mid: Store, s: Store, s': Store, fault: Key -> Fault, seen: set<Key>, last: set<Key>, k: Key)
    requires Leaves(s, s', k, fault(k)) && Owned(s, k.cid) && (k.cid in mid.blobs <==> k.cid in s.blobs)
    requires k !in seen && last <= seen
    ensures var last' := LastAfter(s', fault, last, k);
            && |Broken(mid, fault, seen + {k}, last')|
               == |Broken(mid, fault, seen, last)| + (if Breaks(s, s', k, fault(k)) then 1 else 0)
            && |Finished(mid, fault, last')|
               == |Finished(mid, fault, last)|
                  + if fault(k) == NoFault && k.cid in s.blobs && k.cid !in s'.blobs then 1 else 0
  {
    var last' := LastAfter(s', fault, last, k);
    BrokenGrows(mid, fault, seen, last, last', k, Breaks(s, s', k, fault(k)));
    FinishedGrows(mid, fault, last, last', k, fault(k) == NoFault && k.cid in s.blobs && k.cid !in s'.blobs);
  }

  lemma BrokenGrows(mid: Store, fault: Key -> Fault, seen: set<Key>, last: set<Key>, last': set<Key>, k: Key,
                    breaks: bool)
    requires k !in seen && last <= seen && (last' == last || last' == last + {k})
    requires breaks <==>
               fault(k) == AtOwner || fault(k) == AtBlob || (fault(k) == AtUnlink && k in last' && k.cid in mid.blobs)
    ensures |Broken(mid, fault, seen + {k}, last')| == |Broken(mid, fault, seen, last)| + if breaks then 1 else 0
  {
    var (some, more) := (Broken(mid, fault, seen, last), Broken(mid, fault, seen + {k}, last'));
    if breaks { assert more == some + {k}; } else { assert more == some; }
  }

  lemma FinishedGrows(mid: Store, fault: Key -> Fault, last: set<Key>, last': set<Key>, k: Key, finishes: bool)
    requires k !in last && (last' == last || last' == last + {k})
    requires finishes <==> fault(k) == NoFault && k in last' && k.cid in mid.blobs
    ensures |Finished(mid, fault, last')| == |Finished(mid, fault, last)| + if finishes then 1 else 0
  {
    var (some, more) := (Finished(mid, fault, last), Finished(mid, fault, last'));
    if finishes { assert more == some + {k}; } else { assert more == some; }
  }

  /** What a visit of an expired row leaves, map by map. */
  ghost predicate Leaves(s: Store, s': Store, k: Key, fault: Fault) {
    if fault == AtOwner then s' == s
    else
      var drops := fault != AtBlob && k.cid in s.blobs && !Owned(s', k.cid);
      && s'.owners == s.owners - {k}
      && s'.blobs == (if drops then s.blobs - {k.cid} else s.blobs)
      && s'.files == (if drops && fault == NoFault then s.files - {s.blobs[k.cid]} else s.files)
      && (forall c :: c != k.cid ==> (Owned(s', c) <==> Owned(s, c)))
  }

  lemma VisitLeaves(s: Store, k: Key, late: Time, fault: Fault)
    requires k in s.owners && Expired(s.owners[k], late)
    ensures Leaves(s, SweptOwner(s, k, late, fault), k, fault)
  {
    var t := DeleteExpiredOwner(s, k, late);
    assert k !in t.owners && t != s;
    forall c | c != k.cid ensures Owned(t, c) <==> Owned(s, c) {
      if Owned(s, c) {
        var x :| x in s.owners && x.cid == c;
        assert x in t.owners;
      }
    }
    forall c ensures Owned(SweptOwner(s, k, late, fault), c) <==> Owned(if fault == AtOwner then s else t, c) {}
  }

  lemma StepReclaimed(mid: Store, s: Store, s': Store, fault: Key -> Fault, gone: set<Key>, last: set<Key>, k: Key)
    requires Reclaimed(mid, s, fault, gone, last) && Leaves(s, s', k, fault(k))
    requires Owned(s, k.cid) && Owned(mid, k.cid) && !HasLast(last, k.cid)
    requires forall c :: c in s.blobs ==> c in mid.blobs && s.blobs[c] == mid.blobs[c]
    requires k.cid in mid.blobs ==> k.cid in s.blobs
    ensures Reclaimed(mid, s', fault, if fault(k) == AtOwner then gone else gone + {k}, LastAfter(s', fault, last, k))
  {
    hide Owned;
    var last' := LastAfter(s', fault, last, k);
    forall c ensures HasLast(last', c) <==> HasLast(last, c) || (last' != last && c == k.cid) {
      if HasLast(last, c) {
        var x :| x in last && x.cid == c;
        assert x in last';
      }
      if last' != last { assert k in last'; }
    }
  }

  /** How many blob rows of `mid` are gone. */
  function Dropped(mid: Store, s: Store): nat {
    |mid.blobs.Keys - s.blobs.Keys|
  }

  lemma DroppedOneMore(mid: Store, s1: Store, s2: Store, c: Cid)
    requires s1.blobs.Keys <= mid.blobs.Keys && (s2.blobs == s1.blobs || s2.blobs == s1.blobs - {c})
    ensures Dropped(mid, s2) == Dropped(mid, s1) + if c in s1.blobs && c !in s2.blobs then 1 else 0
  {
    if c in s1.blobs && c !in s2.blobs {
      OneFewer(mid.blobs.Keys, s1.blobs.Keys, c);
      assert s2.blobs.Keys == s1.blobs.Keys - {c};
    } else {
      assert s2.blobs.Keys == s1.blobs.Keys;
    }
  }

  lemma OneFewer<T>(all: set<T>, some: set<T>, x: T)
    requires some <= all && x in some
    ensures |all - (some - {x})| == |all - some| + 1
  {
    assert all - (some - {x}) == (all - some) + {x};
  }

  /** A row of an account left out stays as it is. */
  lemma SweepingSkips(mid: Store, s: Store, now: Time, out: set<Did>, clean: bool, gone: set<Key>, rest: set<Key>,
                      k: Key)
    requires Sweeping(mid, s, now, out, clean, gone, rest) && k.did in out
    ensures Sweeping(mid, s, now, out, clean, gone, rest - {k})
  {
    hide Swept, SweptFully, Expired;
  }

  lemma SweepingDone(mid: Store, s: Store, now: Time, out: set<Did>, clean: bool, gone: set<Key>)
    requires Sweeping(mid, s, now, out, clean, gone, {})
    ensures Swept(mid, s, gone)
    ensures forall k :: k in gone ==> k in mid.owners && Expired(mid.owners[k], now) && k.did !in out
    ensures clean && out == {} ==> SweptFully(mid, s, gone) && ExpiredRows(mid, now, gone)
  {
    hide Swept, SweptFully, Expired;
  }

  /** One more owner row gone. */
  lemma SweptRow(mid: Store, s: Store, gone: set<Key>, k: Key)
    requires Swept(mid, s, gone) && k in s.owners
    ensures Swept(mid, s.(owners := s.owners - {k}), gone + {k})
  {
    var t := s.(owners := s.owners - {k});
    assert t.owners == mid.owners - (gone + {k});
    forall c | c in mid.blobs && c !in t.blobs ensures !Owned(t, c) && exists x :: x in gone + {k} && x.cid == c {
      var x :| x in gone && x.cid == c;
      assert x in gone + {k};
    }
  }

  /** One more blob row gone behind its last owner, and perhaps its file. */
  lemma SweptBlob(mid: Store, t: Store, gone: set<Key>, k: Key, unlinked: bool)
    requires Swept(mid, t, gone) && k in gone && k.cid in t.blobs && !Owned(t, k.cid)
    ensures var u := t.(blobs := t.blobs - {k.cid});
            Swept(mid, if unlinked then Unlink(u, t.blobs[k.cid]) else u, gone)
  {
    var u := t.(blobs := t.blobs - {k.cid});
    var s' := if unlinked then Unlink(u, t.blobs[k.cid]) else u;
    forall c ensures Owned(s', c) <==> Owned(t, c) {
      assert s'.owners == t.owners;
    }
    forall p | p in mid.files && p !in s'.files
      ensures exists c :: c in mid.blobs && c !in s'.blobs && mid.blobs[c] == p
    {
      if p in t.files {
        assert mid.blobs[k.cid] == p;
      } else {
        var c :| c in mid.blobs && c !in t.blobs && mid.blobs[c] == p;
        assert c !in s'.blobs;
      }
    }
  }

  /** One more expired row swept. */
  lemma SweptMore(mid: Store, s1: Store, s2: Store, gone: set<Key>, k: Key, now: Time, fault: Fault)
    requires Swept(mid, s1, gone) && k in s1.owners && Expired(s1.owners[k], now) && k !in gone && fault != AtOwner
    requires s2 == SweptOwner(s1, k, now, fault)
    ensures Swept(mid, s2, gone + {k})
    ensures fault == NoFault && SweptFully(mid, s1, gone) ==> SweptFully(mid, s2, gone + {k})
  {
    hide Swept, SweptFully, Owned;
    var t := DeleteExpiredOwner(s1, k, now);
    assert t == s1.(owners := s1.owners - {k}) && t != s1 by { assert k !in t.owners; }
    SweptRow(mid, s1, gone, k);
    if fault != AtBlob && k.cid in t.blobs && !Owned(t, k.cid) {
      SweptBlob(mid, t, gone + {k}, k, fault != AtUnlink);
    }
    if fault == NoFault && SweptFully(mid, s1, gone) {
      SweptFullyMore(mid, s1, s2, gone, k);
    }
  }

  lemma SweptFullyMore(mid: Store, s1: Store, s2: Store, gone: set<Key>, k: Key)
    requires SweptFully(mid, s1, gone) && Swept(mid, s2, gone + {k}) && k in s1.owners
    requires var t := s1.(owners := s1.owners - {k});
             s2 == if k.cid in t.blobs && !Owned(t, k.cid)
                   then Unlink(t.(blobs := t.blobs - {k.cid}), t.blobs[k.cid]) else t
    ensures SweptFully(mid, s2, gone + {k})
  {
    forall x | x in gone + {k} && x.cid in s2.blobs ensures Owned(s2, x.cid) {
      if x.cid != k.cid {
        var o :| o in s1.owners && o.cid == x.cid;
        assert o in s2.owners;
      }
    }
  }

  // ---- what a pass promises ----

  /** The physical row and file of `c`, as `s` has them, survive in `s'`. */
  ghost predicate Kept(s: Store, s': Store, c: Cid) {
    c in s.blobs && c in s'.blobs && s'.blobs[c] == s.blobs[c] && (s.blobs[c] in s.files ==> s.blobs[c] in s'.files)
  }

  ghost predicate PathsNamed(s: Store) {
    forall c :: c in s.blobs ==> s.blobs[c] == PathOf(c)
  }

  /** A blob some surviving row owns keeps its row and file through a sweep. */
  lemma OwnedSurvives(mid: Store, s': Store, gone: set<Key>, k: Key)
    requires PathsNamed(mid) && Swept(mid, s', gone) && k in mid.owners && k !in gone && k.cid in mid.blobs
    ensures k in s'.owners && s'.owners[k] == mid.owners[k] && Kept(mid, s', k.cid)
  {
    assert k in s'.owners && Owned(s', k.cid);
    if p :| p in mid.files && p !in s'.files && p == mid.blobs[k.cid] {
      var c :| c in mid.blobs && c !in s'.blobs && mid.blobs[c] == p;
      PathInjective(c, k.cid);
    }
  }

  /**
   * Safety of a pass, whatever fails: a stored CID a reconciled account references keeps its bytes and has a permanent
   * row with the true count, adopted if it was missing; an account that failed keeps every row and the bytes of
   * every CID it owns, whoever else expires.
   */
  lemma PassIsSafe(s: Store, mid: Store, s': Store, refs: References, grace: Did -> Time, failed: set<Did>, now: Time,
                   gone: set<Key>, k: Key)
    requires PathsNamed(s) && k.cid in s.blobs
    requires Reconciled(s, mid, refs, grace, Candidates(s, refs) - failed, failed)
    requires Swept(mid, s', gone)
    requires forall x :: x in gone ==> x in mid.owners && Expired(mid.owners[x], now) && x.did !in failed
    ensures k.did !in failed && k.cid in Refs(refs, k.did) ==>
              k in s'.owners && s'.owners[k] == Owner(Refs(refs, k.did)[k.cid], None) && Kept(s, s', k.cid)
    ensures k.did in failed && k in s.owners ==> k in s'.owners && Kept(s, s', k.cid)
  {
    assert RowAt(mid, k) == RowAt(mid, k);
    if (k.did !in failed && k.cid in Refs(refs, k.did)) || (k.did in failed && k in s.owners) {
      OwnedSurvives(mid, s', gone, k);
    }
  }

  /** A pass keeps the store consistent, whatever fails in it. */
  lemma PassKeepsConsistent(s: Store, mid: Store, s': Store, refs: References, grace: Did -> Time, done: set<Did>,
                            failed: set<Did>, gone: set<Key>)
    requires Consistent(s) && Reconciled(s, mid, refs, grace, done, failed) && Swept(mid, s', gone)
    ensures Consistent(mid) && Consistent(s')
  {
    forall k | k in mid.owners
      ensures k.cid in mid.blobs && (mid.owners[k].tempUntil.Some? ==> mid.owners[k].refCount == 0)
    {
      assert RowAt(mid, k) == Some(mid.owners[k]);
    }
    forall k | k in s'.owners ensures k.cid in s'.blobs {
      OwnedSurvives(mid, s', gone, k);
    }
    forall c | c in s'.blobs ensures PathOf(c) in s'.files {
      if PathOf(c) !in s'.files {
        var d :| d in mid.blobs && d !in s'.blobs && mid.blobs[d] == PathOf(c);
        PathInjective(c, d);
      }
    }
  }

  // ---- progress of error-free passes ----

  /** One error-free pass: every candidate reconciled, every expired row swept, everything unowned reclaimed. */
  ghost predicate CleanPass(s: Store, mid: Store, s': Store, refs: References, grace: Did -> Time, now: Time,
                            gone: set<Key>) {
    && Reconciled(s, mid, refs, grace, Candidates(s, refs), {})
    && SweptFully(mid, s', gone) && ExpiredRows(mid, now, gone)
  }

  /**
   * The fate of an unreferenced row: a permanent one is released and survives this very pass exactly when its new
   * deadline is not already past at the sweep; one counting down keeps its deadline and goes exactly when it is past.
   */
  lemma UnreferencedRow(s: Store, mid: Store, s': Store, refs: References, grace: Did -> Time, now: Time,
                        gone: set<Key>, k: Key)
    requires Consistent(s) && CleanPass(s, mid, s', refs, grace, now, gone)
    requires k in s.owners && k.cid !in Refs(refs, k.did)
    ensures var deadline := if s.owners[k].tempUntil.None? then grace(k.did) else s.owners[k].tempUntil.value;
            RowAt(s', k) == if deadline < now then None else Some(Owner(0, Some(deadline)))
  {
    hide Reconciled, SweptFully, ExpiredRows, Candidates, Refs;
    ReconciledRow(s, mid, refs, grace, k);
    SweptRows(mid, s', now, gone, k);
    if s.owners[k].tempUntil.Some? {
      DeadlineMeansUnused(s, k);
    }
  }

  lemma ReconciledRow(s: Store, mid: Store, refs: References, grace: Did -> Time, k: Key)
    requires Reconciled(s, mid, refs, grace, Candidates(s, refs), {}) && k in s.owners
    ensures RowAt(mid, k) == Target(s, Refs(refs, k.did), k, grace(k.did))
  {
    assert k.did in Candidates(s, refs);
  }

  lemma SweptRows(mid: Store, s': Store, now: Time, gone: set<Key>, k: Key)
    requires SweptFully(mid, s', gone) && ExpiredRows(mid, now, gone)
    ensures RowAt(s', k) == if k in mid.owners && Expired(mid.owners[k], now) then None else RowAt(mid, k)
  {}

  lemma DeadlineMeansUnused(s: Store, k: Key)
    requires Consistent(s) && k in s.owners && s.owners[k].tempUntil.Some?
    ensures s.owners[k].refCount == 0
  {}

  /** Rows only appear for references, and a referenced row is never swept. */
  lemma OwnersAfter(s: Store, mid: Store, s': Store, refs: References, grace: Did -> Time, now: Time, gone: set<Key>,
                    k: Key)
    requires Consistent(s) && CleanPass(s, mid, s', refs, grace, now, gone)
    ensures k in mid.owners <==> k in s.owners || (k.cid in Refs(refs, k.did) && k.cid in s.blobs)
    ensures k.cid in Refs(refs, k.did) && k.cid in s.blobs ==> k in s'.owners
    ensures k in s'.owners ==> k in mid.owners
  {
    assert k in s.owners || k.did in refs ==> k.did in Candidates(s, refs);
    assert RowAt(mid, k) == RowAt(mid, k);
  }

  ghost predicate Unreferenced(refs: References, c: Cid) {
    forall d :: c !in Refs(refs, d)
  }

  /** Every owner's grace is over at `now`, counting the clock this pass starts for permanent rows. */
  ghost predicate AllOverdue(s: Store, grace: Did -> Time, now: Time, c: Cid) {
    forall k :: k in s.owners && k.cid == c ==>
      (if s.owners[k].tempUntil.None? then grace(k.did) else s.owners[k].tempUntil.value) < now
  }

  /**
   * An error-free pass reclaims exactly the blobs that had an owner, are referenced nowhere, and are overdue for all.
   */
  lemma ReclaimedIff(s: Store, mid: Store, s': Store, refs: References, grace: Did -> Time, now: Time, gone: set<Key>,
                     c: Cid)
    requires Consistent(s) && CleanPass(s, mid, s', refs, grace, now, gone) && c in s.blobs
    ensures c !in s'.blobs <==> Owned(s, c) && Unreferenced(refs, c) && AllOverdue(s, grace, now, c)
    ensures c !in s'.blobs ==> PathOf(c) !in s'.files
  {
    hide Expired;
    PassKeepsConsistent(s, mid, s', refs, grace, Candidates(s, refs), {}, gone);
    if c !in s'.blobs {
      var x :| x in gone && x.cid == c;
      OwnersAfter(s, mid, s', refs, grace, now, gone, x);
      hide Reconciled, Refs;
      forall d ensures c !in Refs(refs, d) {
        OwnersAfter(s, mid, s', refs, grace, now, gone, Key(d, c));
        assert Key(d, c) !in s'.owners;
      }
      forall k | k in s.owners && k.cid == c
        ensures (if s.owners[k].tempUntil.None? then grace(k.did) else s.owners[k].tempUntil.value) < now
      {
        UnreferencedRow(s, mid, s', refs, grace, now, gone, k);
        assert RowAt(s', k) == None;
      }
    } else if Owned(s, c) && Unreferenced(refs, c) && AllOverdue(s, grace, now, c) {
      OverdueIsReclaimed(s, mid, s', refs, grace, now, gone, c);
    }
  }

  lemma OverdueIsReclaimed(s: Store, mid: Store, s': Store, refs: References, grace: Did -> Time, now: Time,
                           gone: set<Key>, c: Cid)
    requires Consistent(s) && CleanPass(s, mid, s', refs, grace, now, gone)
    requires Owned(s, c) && Unreferenced(refs, c) && AllOverdue(s, grace, now, c)
    ensures c !in s'.blobs
  {
    hide Reconciled, Refs, Expired, Consistent;
    var x :| x in s.owners && x.cid == c;
    UnreferencedRow(s, mid, s', refs, grace, now, gone, x);
    OwnersAfter(s, mid, s', refs, grace, now, gone, x);
    assert x in gone by { assert RowAt(s', x).None? && s'.owners == mid.owners - gone; }
    if Owned(s', c) {
      var k :| k in s'.owners && k.cid == c;
      OwnersAfter(s, mid, s', refs, grace, now, gone, k);
      UnreferencedRow(s, mid, s', refs, grace, now, gone, k);
    }
  }

  /** A blob row left without owners (a crash between the two deletes) is never reclaimed by any error-free pass. */
  lemma OwnerlessRowLeaks(s: Store, mid: Store, s': Store, refs: References, grace: Did -> Time, now: Time,
                          gone: set<Key>, c: Cid)
    requires Consistent(s) && CleanPass(s, mid, s', refs, grace, now, gone)
    requires c in s.blobs && !Owned(s, c) && Unreferenced(refs, c)
    ensures c in s'.blobs && !Owned(s', c)
  {
    ReclaimedIff(s, mid, s', refs, grace, now, gone, c);
    forall k | k in s'.owners && k.cid == c ensures false {
      OwnersAfter(s, mid, s', refs, grace, now, gone, k);
    }
  }

  // ---- crashes between statements, and uploads beside them ----

  /** `pending` is the path the sweep read from the row it has just deleted and not yet unlinked. */
  datatype Machine = Machine(s: Store, pending: Option<string>)

  datatype Statement =
    | DoUpsert(k: Key, n: nat)
    | DoRelease(k: Key, until: Time)
    | DoDeleteOwner(k: Key, now: Time)
    | DoDeleteBlob(c: Cid)
    | DoUnlink
    | DoCrash
    | WriteFile(c: Cid)
    | DoInsert(k: Key, until: Time)

  function Exec(m: Machine, st: Statement): Machine {
    match st
    case DoUpsert(k, n) => m.(s := Upsert(m.s, k, n))
    case DoRelease(k, until) => m.(s := Release(m.s, k, until))
    case DoDeleteOwner(k, now) => m.(s := DeleteExpiredOwner(m.s, k, now))
    case DoDeleteBlob(c) =>
      if c in m.s.blobs && !Owned(m.s, c) && m.pending.None?
      then Machine(DeleteUnownedBlob(m.s, c), Some(m.s.blobs[c])) else m
    case DoUnlink => if m.pending.Some? then Machine(Unlink(m.s, m.pending.value), None) else m
    case DoCrash => m.(pending := None)
    case WriteFile(c) => m.(s := m.s.(files := m.s.files + {PathOf(c)}))
    case DoInsert(k, until) => m.(s := InsertBlob(m.s, k, until))
  }

  /** Consistent, and nothing is about to be unlinked that a row still names. */
  ghost predicate Sound(m: Machine) {
    Consistent(m.s) && (m.pending.Some? ==> forall c :: c in m.s.blobs ==> m.s.blobs[c] != m.pending.value)
  }

  /** An upload's rows land while its file is there and not about to be unlinked. */
  predicate InsertExcluded(m: Machine, st: Statement) {
    st.DoInsert? ==> st.k.cid in m.s.blobs || (PathOf(st.k.cid) in m.s.files && m.pending != Some(PathOf(st.k.cid)))
  }

  lemma ExecKeepsSound(m: Machine, st: Statement)
    requires Sound(m) && InsertExcluded(m, st)
    ensures Sound(Exec(m, st))
  {
    match st
    case DoDeleteBlob(c) =>
      forall d | d in m.s.blobs && PathOf(d) == PathOf(c) ensures d == c { PathInjective(c, d); }
    case DoInsert(k, _) =>
      forall d | PathOf(d) == PathOf(k.cid) ensures d == k.cid { PathInjective(d, k.cid); }
    case _ =>
  }

  function ExecAll(m: Machine, sts: seq<Statement>): Machine
    decreases |sts|
  {
    if sts == [] then m else Exec(ExecAll(m, sts[..|sts| - 1]), sts[|sts| - 1])
  }

  /** The statements of one visit, in order, and how many of them run. */
  function VisitStatements(k: Key, now: Time): seq<Statement> {
    [DoDeleteOwner(k, now), DoDeleteBlob(k.cid), DoUnlink]
  }

  function StatementsRun(s: Store, k: Key, now: Time, fault: Fault): nat {
    match fault
    case AtOwner => 0
    case AtBlob => 1
    case AtUnlink => if k in s.owners && Expired(s.owners[k], now) then 2 else 1
    case NoFault => if k in s.owners && Expired(s.owners[k], now) then 3 else 1
  }

  /** A visit of the sweep is a prefix of its statements, cut where a statement failed or the row was not expired. */
  lemma VisitIsItsStatements(s: Store, k: Key, now: Time, fault: Fault)
    ensures var n := StatementsRun(s, k, now, fault);
            n <= 3 && SweptOwner(s, k, now, fault) == ExecAll(Machine(s, None), VisitStatements(k, now)[..n]).s
  {
    var (sts, m) := (VisitStatements(k, now), Machine(s, None));
    assert sts[..0] == [] && sts[..1][..0] == [] && sts[..2][..1] == sts[..1] && sts[..3][..2] == sts[..2];
    assert ExecAll(m, sts[..1]) == Exec(m, sts[0]) && ExecAll(m, sts[..2]) == Exec(Exec(m, sts[0]), sts[1]);
    assert k in s.owners && Expired(s.owners[k], now) ==> k !in DeleteExpiredOwner(s, k, now).owners;
  }

  /** With crashes between any two statements and uploads kept out of the window, rows never dangle. */
  lemma {:induction false} CrashesNeverDangle(m: Machine, sts: seq<Statement>)
    requires Sound(m)
    requires forall i :: 0 <= i < |sts| ==> InsertExcluded(ExecAll(m, sts[..i]), sts[i])
    ensures Sound(ExecAll(m, sts))
    decreases |sts|
  {
    if sts != [] {
      var init := sts[..|sts| - 1];
      forall i | 0 <= i < |init| ensures InsertExcluded(ExecAll(m, init[..i]), init[i]) {
        assert init[..i] == sts[..i];
      }
      CrashesNeverDangle(m, init);
      assert InsertExcluded(ExecAll(m, init), sts[|sts| - 1]);
      ExecKeepsSound(ExecAll(m, init), sts[|sts| - 1]);
    }
  }

  /** The exclusion is exactly what the rows of an upload need. */
  lemma InsertSoundIff(m: Machine, k: Key, until: Time)
    requires Sound(m)
    ensures Sound(Exec(m, DoInsert(k, until))) <==> InsertExcluded(m, DoInsert(k, until))
  {
    if InsertExcluded(m, DoInsert(k, until)) {
      ExecKeepsSound(m, DoInsert(k, until));
    } else {
      var s' := Exec(m, DoInsert(k, until)).s;
      assert k.cid in s'.blobs && s'.blobs[k.cid] == PathOf(k.cid);
    }
  }

  /** An upload's rows: the blob row at its CID's path, and a fresh deadline unless the account references it. */
  lemma InsertedRows(s: Store, k: Key, until: Time)
    ensures var s' := InsertBlob(s, k, until);
            && s'.blobs.Keys == s.blobs.Keys + {k.cid} && s'.files == s.files
            && (k.cid !in s.blobs ==> s'.blobs[k.cid] == PathOf(k.cid))
            && (forall x :: x != k ==> RowAt(s', x) == RowAt(s, x))
            && RowAt(s', k).Some?
            && if k in s.owners && s.owners[k].refCount > 0 then s'.owners[k] == s.owners[k]
               else s'.owners[k].refCount == 0 && s'.owners[k].tempUntil == Some(until)
  {}

  /** An upload that wrote its file before the sweep deleted the old row, and inserts after the unlink, has no bytes. */
  lemma UploadRaceExample() returns (m: Machine, sts: seq<Statement>)
    ensures Sound(m) && m.pending.None? && !Sound(ExecAll(m, sts))
    ensures sts == [WriteFile("bafk"), DoDeleteBlob("bafk"), DoUnlink, DoInsert(Key("did", "bafk"), 9)]
  {
    var c := "bafk";
    m := Machine(Store(map[c := PathOf(c)], map[], {PathOf(c)}), None);
    var a, b, d := WriteFile(c), DoDeleteBlob(c), DoInsert(Key("did", c), 9);
    sts := [a, b, DoUnlink, d];
    assert sts[..3] == [a, b, DoUnlink] && sts[..3][..2] == [a, b] && sts[..3][..2][..1] == [a]
           && sts[..3][..2][..1][..0] == [];
    var m1 := Exec(m, a);
    var m2 := Exec(m1, b);
    assert !Owned(m1.s, c);
    assert ExecAll(m, [a]) == m1 by { assert [a][..0] == []; }
    assert ExecAll(m, [a, b]) == m2 by { assert [a, b][..1] == [a]; }
    assert ExecAll(m, [a, b, DoUnlink]) == Exec(m2, DoUnlink) by { assert [a, b, DoUnlink][..2] == [a, b]; }
    assert ExecAll(m, sts) == Exec(Exec(m2, DoUnlink), d);
    var s' := ExecAll(m, sts).s;
    assert c in s'.blobs && s'.blobs[c] == PathOf(c);
    assert m2.pending == Some(PathOf(c)) && PathOf(c) !in Exec(m2, DoUnlink).s.files;
  }
}

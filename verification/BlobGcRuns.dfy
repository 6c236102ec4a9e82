/** Garbage collection over whole runs: what becomes of a blob no record references any more. */
module BlobGcRuns {
  import opened Wrappers
  import opened BlobPaths
  import opened BlobGc

  /**
   * One pass: it reconciled `s` into `mid`, breaking off on the accounts `failed`, then made `visits` until `s'`.
   * `grace` and `now` are its clocks.
   */
  datatype Pass = Pass(s: Store, mid: Store, s': Store, refs: References, grace: Did -> Time, now: Time,
                       failed: set<Did>, gone: set<Key>, visits: seq<Visit>)

  /** `t` agrees with `s` on the rows and the file of `c`: whatever ran between them worked on other blobs. */
  ghost predicate SameFor(s: Store, t: Store, c: Cid) {
    && (c in s.blobs <==> c in t.blobs)
    && (PathOf(c) in s.files <==> PathOf(c) in t.files)
    && forall k: Key :: k.cid == c ==> RowAt(t, k) == RowAt(s, k)
  }

  /** Passes one after the other, during which no record references `c` and nothing else touches it. */
  ghost predicate Apart(passes: seq<Pass>, c: Cid) {
    forall i :: 0 <= i < |passes| ==>
      && Consistent(passes[i].s) && Unreferenced(passes[i].refs, c)
      && (i > 0 ==> SameFor(passes[i - 1].s', passes[i].s, c))
  }

  // ---- error-free passes ----

  ghost predicate AllClean(passes: seq<Pass>) {
    forall i :: 0 <= i < |passes| ==>
      var p := passes[i]; CleanPass(p.s, p.mid, p.s', p.refs, p.grace, p.now, p.gone)
  }

  /** When the grace of the owner `k` ends: its running deadline, or the one the first pass gives a permanent row. */
  function Deadline(p: Pass, k: Key): Time
    requires k in p.s.owners
  {
    if p.s.owners[k].tempUntil.None? then p.grace(k.did) else p.s.owners[k].tempUntil.value
  }

  /** The owner `k` of the first pass is not overdue at any of them. */
  ghost predicate Outlasts(passes: seq<Pass>, k: Key)
    requires passes != []
  {
    k in passes[0].s.owners && forall i :: 0 <= i < |passes| ==> passes[i].now <= Deadline(passes[0], k)
  }

  /** The row an owner of the first pass has after all of them. */
  ghost function CountingDown(passes: seq<Pass>, k: Key): Option<Owner>
    requires passes != []
  {
    if Outlasts(passes, k) then Some(Owner(0, Some(Deadline(passes[0], k)))) else None
  }

  /**
   * Over any run of error-free passes a blob that fell out of every record is kept, row and file, exactly while some
   * owner's grace outlasts every pass so far, and then goes for good; each owner's row stands, with that deadline,
   * exactly while its own grace does.
   */
  lemma FallenBlobIsCollected(passes: seq<Pass>, c: Cid)
    requires passes != [] && AllClean(passes) && Apart(passes, c) && Owned(passes[0].s, c)
    ensures var s' := passes[|passes| - 1].s';
            && (c in s'.blobs <==> exists k: Key :: k.cid == c && Outlasts(passes, k))
            && (PathOf(c) in s'.files <==> c in s'.blobs)
            && forall k: Key :: k.cid == c ==> RowAt(s', k) == CountingDown(passes, k)
  {
    RunOfPasses(passes, c);
    var s' := passes[|passes| - 1].s';
    assert forall k: Key :: k.cid == c ==> (RowAt(s', k).Some? <==> Outlasts(passes, k));
    assert forall k: Key :: k in s'.owners <==> RowAt(s', k).Some?;
  }

  lemma {:induction false} RunOfPasses(passes: seq<Pass>, c: Cid)
    requires passes != [] && AllClean(passes) && Apart(passes, c) && Owned(passes[0].s, c)
    ensures var s' := passes[|passes| - 1].s';
            && (c in s'.blobs <==> Owned(s', c)) && (PathOf(c) in s'.files <==> c in s'.blobs)
            && forall k: Key :: k.cid == c ==> RowAt(s', k) == CountingDown(passes, k)
    decreases |passes|
  {
    hide CountingDown, Consistent, CleanPass, Unreferenced;
    var n := |passes| - 1;
    var p := passes[n];
    if n > 0 {
      RunOfPasses(passes[..n], c);
      assert SameFor(passes[n - 1].s', p.s, c);
      SameOwned(passes[n - 1].s', p.s, c);
    } else {
      OwnedIsStored(p.s, c);
    }
    assert CleanPass(p.s, p.mid, p.s', p.refs, p.grace, p.now, p.gone) && Consistent(p.s);
    BlobAfterPass(p, c);
    hide SameFor;
    forall k: Key | k.cid == c ensures RowAt(p.s', k) == CountingDown(passes, k) {
      RowAfterPass(p, k);
      CountsDown(passes, k);
    }
  }

  lemma OwnedIsStored(s: Store, c: Cid)
    requires Consistent(s) && Owned(s, c)
    ensures c in s.blobs && PathOf(c) in s.files
  {}

  lemma SameOwned(s: Store, t: Store, c: Cid)
    requires SameFor(s, t, c)
    ensures Owned(t, c) <==> Owned(s, c)
  {
    if k :| k in s.owners && k.cid == c { assert RowAt(t, k) == RowAt(s, k); }
    if k :| k in t.owners && k.cid == c { assert RowAt(t, k) == RowAt(s, k); }
  }

  /** One more pass for a row counting down. */
  lemma CountsDown(passes: seq<Pass>, k: Key)
    requires passes != []
    requires var (n, p) := (|passes| - 1, passes[|passes| - 1]);
             && (n > 0 ==> RowAt(p.s, k) == CountingDown(passes[..n], k))
    ensures var p := passes[|passes| - 1];
            CountingDown(passes, k)
            == if k in p.s.owners && p.now <= Deadline(p, k) then Some(Owner(0, Some(Deadline(p, k)))) else None
  {
    var n := |passes| - 1;
    if n > 0 {
      assert Outlasts(passes, k) <==> Outlasts(passes[..n], k) && passes[n].now <= Deadline(passes[0], k);
    }
  }

  lemma RowAfterPass(p: Pass, k: Key)
    requires Consistent(p.s) && CleanPass(p.s, p.mid, p.s', p.refs, p.grace, p.now, p.gone)
             && Unreferenced(p.refs, k.cid)
    ensures RowAt(p.s', k)
         == if k in p.s.owners && p.now <= Deadline(p, k) then Some(Owner(0, Some(Deadline(p, k)))) else None
  {
    if k in p.s.owners {
      UnreferencedRow(p.s, p.mid, p.s', p.refs, p.grace, p.now, p.gone, k);
    } else {
      OwnersAfter(p.s, p.mid, p.s', p.refs, p.grace, p.now, p.gone, k);
    }
  }

  lemma BlobAfterPass(p: Pass, c: Cid)
    requires Consistent(p.s) && CleanPass(p.s, p.mid, p.s', p.refs, p.grace, p.now, p.gone) && Unreferenced(p.refs, c)
    requires c in p.s.blobs ==> Owned(p.s, c)
    requires PathOf(c) in p.s.files <==> c in p.s.blobs
    ensures c in p.s'.blobs <==> Owned(p.s', c)
    ensures PathOf(c) in p.s'.files <==> c in p.s'.blobs
  {
    PassKeepsConsistent(p.s, p.mid, p.s', p.refs, p.grace, Candidates(p.s, p.refs), {}, p.gone);
    if c in p.s.blobs {
      ReclaimedIff(p.s, p.mid, p.s', p.refs, p.grace, p.now, p.gone, c);
      if c in p.s'.blobs {
        var k :| k in p.s.owners && k.cid == c && p.now <= Deadline(p, k);
        RowAfterPass(p, k);
      }
    }
  }

  // ---- passes that fail ----

  /** Whatever failed: the accounts outside `failed` were reconciled, and the visits made are `visits`. */
  ghost predicate Ran(p: Pass) {
    && Reconciled(p.s, p.mid, p.refs, p.grace, Candidates(p.s, p.refs) - p.failed, p.failed)
    && p.s' == Visited(p.mid, p.visits)
  }

  ghost predicate AllRan(passes: seq<Pass>) {
    forall i :: 0 <= i < |passes| ==> Ran(passes[i])
  }

  /** The visit deletes the last owner of `c`. */
  ghost predicate DeletesLast(s: Store, v: Visit, c: Cid) {
    && v.k.cid == c && v.k in s.owners && Expired(s.owners[v.k], v.late) && v.fault != AtOwner
    && forall x :: x in s.owners && x.cid == c ==> x == v.k
  }

  /** Where the visit that deleted the last owner of `c` broke off, if there was one. */
  ghost function LastDelete(s: Store, visits: seq<Visit>, c: Cid): Option<Fault>
    decreases |visits|
  {
    if visits == [] then None
    else
      var (init, v) := (visits[..|visits| - 1], visits[|visits| - 1]);
      var before := LastDelete(s, init, c);
      if before.Some? then before else if DeletesLast(Visited(s, init), v, c) then Some(v.fault) else None
  }

  ghost function LastDeleteOver(passes: seq<Pass>, c: Cid): Option<Fault>
    decreases |passes|
  {
    if passes == [] then None
    else
      var (init, p) := (passes[..|passes| - 1], passes[|passes| - 1]);
      var before := LastDeleteOver(init, c);
      if before.Some? then before else LastDelete(p.mid, p.visits, c)
  }

  /** What is left of `c`, by where the delete of its last owner broke off. */
  ghost predicate Fate(s: Store, c: Cid, last: Option<Fault>) {
    && (Owned(s, c) <==> last.None?)
    && (c in s.blobs <==> last.None? || last.value == AtBlob)
    && (PathOf(c) in s.files <==> last != Some(NoFault))
    && last != Some(AtOwner)
  }

  lemma VisitFate(s: Store, v: Visit, c: Cid, last: Option<Fault>)
    requires PathsNamed(s) && Fate(s, c, last)
    ensures var s' := SweptOwner(s, v.k, v.late, v.fault);
            && PathsNamed(s')
            && Fate(s', c, if last.Some? then last else if DeletesLast(s, v, c) then Some(v.fault) else None)
  {
    if PathOf(c) == PathOf(v.k.cid) {
      PathInjective(c, v.k.cid);
    }
  }

  lemma {:induction false} VisitsFate(s: Store, visits: seq<Visit>, c: Cid)
    requires PathsNamed(s) && Fate(s, c, None)
    ensures PathsNamed(Visited(s, visits)) && Fate(Visited(s, visits), c, LastDelete(s, visits, c))
    decreases |visits|
  {
    hide Fate, PathsNamed, SweptOwner, DeletesLast;
    if visits != [] {
      var init := visits[..|visits| - 1];
      VisitsFate(s, init, c);
      VisitFate(Visited(s, init), visits[|visits| - 1], c, LastDelete(s, init, c));
    }
  }

  /** Nothing deletes the last owner of a blob that has none. */
  lemma {:induction false} SettledFate(s: Store, visits: seq<Visit>, c: Cid, last: Option<Fault>)
    requires PathsNamed(s) && Fate(s, c, last) && last.Some?
    ensures PathsNamed(Visited(s, visits)) && Fate(Visited(s, visits), c, last)
    decreases |visits|
  {
    hide Fate, PathsNamed, SweptOwner, DeletesLast;
    if visits != [] {
      var init := visits[..|visits| - 1];
      SettledFate(s, init, c, last);
      VisitFate(Visited(s, init), visits[|visits| - 1], c, last);
    }
  }

  /** Reconciling moves no row of an unreferenced blob away. */
  lemma ReconcilingKeepsFate(p: Pass, c: Cid, last: Option<Fault>)
    requires Consistent(p.s) && Unreferenced(p.refs, c) && Ran(p) && Fate(p.s, c, last)
    ensures PathsNamed(p.mid) && Fate(p.mid, c, last)
  {
    forall k: Key | k.cid == c ensures k in p.mid.owners <==> k in p.s.owners {
      assert RowAt(p.mid, k) == RowAt(p.mid, k);
    }
  }

  lemma SameFate(s: Store, t: Store, c: Cid, last: Option<Fault>)
    requires SameFor(s, t, c) && Fate(s, c, last)
    ensures Fate(t, c, last)
  {
    SameOwned(s, t, c);
  }

  /**
   * Over any run of passes, whatever fails in them, a blob that fell out of every record keeps its owners, row and
   * file until a visit deletes its last owner; if that visit runs to its end, row and file go with it, if it breaks off
   * before the unlink the file stays behind, and if it breaks off before the blob row the row and file stay for good.
   */
  lemma {:induction false} FateOfFallenBlob(passes: seq<Pass>, c: Cid)
    requires passes != [] && AllRan(passes) && Apart(passes, c) && Owned(passes[0].s, c)
    ensures Fate(passes[|passes| - 1].s', c, LastDeleteOver(passes, c))
    decreases |passes|
  {
    var n := |passes| - 1;
    var p := passes[n];
    RunSplit(passes, c);
    hide Fate, Ran, AllRan, Apart, SameFor, Visited, Consistent, Unreferenced, LastDelete;
    var before := LastDeleteOver(passes[..n], c);
    if n > 0 {
      FateOfFallenBlob(passes[..n], c);
      SameFate(passes[n - 1].s', p.s, c, before);
    } else {
      OwnedFate(p.s, c);
    }
    PassFate(p, c, before);
  }

  lemma RunSplit(passes: seq<Pass>, c: Cid)
    requires passes != [] && AllRan(passes) && Apart(passes, c)
    ensures var (n, p) := (|passes| - 1, passes[|passes| - 1]);
            && Consistent(p.s) && Unreferenced(p.refs, c) && Ran(p)
            && AllRan(passes[..n]) && Apart(passes[..n], c) && (n > 0 ==> SameFor(passes[n - 1].s', p.s, c))
  {
    hide Consistent, Unreferenced, Ran, SameFor;
  }

  lemma OwnedFate(s: Store, c: Cid)
    requires Consistent(s) && Owned(s, c)
    ensures Fate(s, c, None)
  {}

  lemma PassFate(p: Pass, c: Cid, last: Option<Fault>)
    requires Consistent(p.s) && Unreferenced(p.refs, c) && Ran(p) && Fate(p.s, c, last)
    ensures Fate(p.s', c, if last.Some? then last else LastDelete(p.mid, p.visits, c))
  {
    hide Fate;
    ReconcilingKeepsFate(p, c, last);
    if last.Some? {
      SettledFate(p.mid, p.visits, c, last);
    } else {
      VisitsFate(p.mid, p.visits, c);
    }
  }

  /**
   * Once every grace is over, an error-free pass leaves the row of a fallen blob uncollected if and only if an earlier
   * pass deleted its last owner and broke off before the blob row.
   */
  lemma UncollectedIffStranded(passes: seq<Pass>, p: Pass, c: Cid)
    requires passes != [] && AllRan(passes) && Apart(passes + [p], c) && Owned(passes[0].s, c)
    requires CleanPass(p.s, p.mid, p.s', p.refs, p.grace, p.now, p.gone) && AllOverdue(p.s, p.grace, p.now, c)
    ensures c in p.s'.blobs <==> LastDeleteOver(passes, c) == Some(AtBlob)
  {
    var all := passes + [p];
    assert all[|passes|] == p && all[0] == passes[0] && forall i :: 0 <= i < |passes| ==> all[i] == passes[i];
    assert Apart(passes, c) && SameFor(passes[|passes| - 1].s', p.s, c) && Unreferenced(p.refs, c) && Consistent(p.s);
    FateOfFallenBlob(passes, c);
    SameFate(passes[|passes| - 1].s', p.s, c, LastDeleteOver(passes, c));
    hide CleanPass, Consistent, LastDeleteOver, AllOverdue, Unreferenced, Apart;
    if c in p.s.blobs {
      ReclaimedIff(p.s, p.mid, p.s', p.refs, p.grace, p.now, p.gone, c);
    } else {
      BlobsOnlyGo(p);
    }
  }

  lemma BlobsOnlyGo(p: Pass)
    requires CleanPass(p.s, p.mid, p.s', p.refs, p.grace, p.now, p.gone)
    ensures p.s'.blobs.Keys <= p.s.blobs.Keys
  {}
}
